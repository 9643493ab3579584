/** Attribution weights.
    The credit each touchpoint of a causal chain gets, under each of the four models, and what it adds up to.
    Credit may be rounded and may be decayed with the age of the touchpoint.
    An id that occurs more than once keeps what it was given last. */
module Attribution {

  import opened Options
  import opened Counting
  import opened RealArithmetic
  import opened Sequences
  import R = Rounding
  import S = MapSums

  type Id = Name

  datatype Model = FirstTouch | LastTouch | Linear | PositionBased

  type Weights = map<Id, real>

  /** The ids of the result rows that have one, nearest touchpoint first. */
  function Touchpoints(rows: seq<Option<Id>>): seq<Id> {
    if rows == [] then []
    else
      var before := Touchpoints(rows[..|rows| - 1]);
      match rows[|rows| - 1]
      case Some(id) => if id != "" then before + [id] else before
      case None => before
  }

  /** The same credit for every id. */
  function Same(ids: set<Id>, credit: real): Weights {
    map id | id in ids :: credit
  }

  /** `w`, with an id that is not in it yet. */
  function Add(w: Weights, id: Id, credit: real): Weights {
    if id in w then w else w[id := credit]
  }

  /** What each model gives, an id that occurs more than once getting what it was given last. */
  function Credit(ids: seq<Id>, model: Model, round: R.Round): Weights {
    var n := |ids|;
    if n == 0 then map[]
    else
      match model
      case FirstTouch => Add(Same(Elements(ids[1..]), 0.0), ids[0], 1.0)
      case LastTouch => Same(Elements(ids), 0.0)[ids[n - 1] := 1.0]
      case Linear => Same(Elements(ids), round(1.0 / n as real))
      case PositionBased =>
        if n == 1 then map[ids[0] := 1.0]
        else if n == 2 then map[ids[0] := 0.5, ids[1] := 0.5]
        else Add(Add(Same(Elements(ids[1..n - 1]), round(0.2 / (n - 2) as real)), ids[0], 0.4), ids[n - 1], 0.4)
  }

  method TouchpointIds(rows: seq<Option<Id>>) returns (ids: seq<Id>)
    ensures ids == Touchpoints(rows)
  {
    ids := [];
    for i := 0 to |rows|
      invariant ids == Touchpoints(rows[..i])
    {
      assert rows[..i + 1][..i] == rows[..i];
      if rows[i].Some? && rows[i].value != "" {
        ids := ids + [rows[i].value];
      }
    }
    assert rows[..|rows|] == rows;
  }

  /** `_assign_weights` */
  method AssignWeights(rows: seq<Option<Id>>, model: Model, round: R.Round) returns (weights: Weights)
    ensures weights == Credit(Touchpoints(rows), model, round)
  {
    var ids := TouchpointIds(rows);
    var n := |ids|;
    if n == 0 {
      return map[];
    }
    weights := map[];
    match model {
      case FirstTouch =>
        weights := weights[ids[0] := 1.0];
        weights := Overwrite(weights, ids[1..], 0.0);
      case LastTouch =>
        weights := Overwrite(weights, ids[..n - 1], 0.0);
        weights := weights[ids[n - 1] := 1.0];
        assert weights.Keys == Elements(ids) by {
          assert ids == ids[..n - 1] + [ids[n - 1]];
        }
      case Linear =>
        var equalWeight := 1.0 / n as real;
        weights := Overwrite(weights, ids, round(equalWeight));
      case PositionBased =>
        if n == 1 {
          weights := weights[ids[0] := 1.0];
        } else if n == 2 {
          weights := weights[ids[0] := 0.5];
          weights := weights[ids[1] := 0.5];
        } else {
          weights := weights[ids[0] := 0.4];
          weights := weights[ids[n - 1] := 0.4];
          var middleWeight := 0.2 / (n - 2) as real;
          weights := Overwrite(weights, ids[1..n - 1], round(middleWeight));
        }
    }
  }

  /** Gives `credit` to each of the ids, one after the other. */
  method Overwrite(before: Weights, ids: seq<Id>, credit: real) returns (weights: Weights)
    ensures weights == before + Same(Elements(ids), credit)
  {
    weights := before;
    for i := 0 to |ids|
      invariant weights == before + Same(Elements(ids[..i]), credit)
    {
      assert Elements(ids[..i + 1]) == Elements(ids[..i]) + {ids[i]} by {
        assert ids[..i + 1] == ids[..i] + [ids[i]];
      }
      weights := weights[ids[i] := credit];
    }
    assert ids[..|ids|] == ids;
  }

  /** Rows without an id are passed over, and the others keep their order. */
  lemma {:induction false} TouchpointsInOrder(a: seq<Option<Id>>, b: seq<Option<Id>>)
    ensures Touchpoints(a + b) == Touchpoints(a) + Touchpoints(b)
    decreases |b|
  {
    if b == [] {
      assert a + b == a;
    } else {
      assert (a + b)[..|a + b| - 1] == a + b[..|b| - 1];
      TouchpointsInOrder(a, b[..|b| - 1]);
    }
  }

  lemma TouchpointOfRow(row: Option<Id>)
    ensures row.None? || row.value == "" ==> Touchpoints([row]) == []
    ensures row.Some? && row.value != "" ==> Touchpoints([row]) == [row.value]
  {
    assert [row][..0] == [];
  }

  /** Who gets what, id by id. */
  lemma CreditMeaning(ids: seq<Id>, model: Model, round: R.Round, id: Id)
    ensures id in Credit(ids, model, round) <==> id in ids
    ensures id in ids ==>
              var n, credit := |ids|, Credit(ids, model, round)[id];
              match model
              case FirstTouch => credit == if OnlyFirst(ids, id) then 1.0 else 0.0
              case LastTouch => credit == if ids[n - 1] == id then 1.0 else 0.0
              case Linear => credit == round(1.0 / n as real)
              case PositionBased =>
                credit == if n == 1 then 1.0 else if n == 2 then 0.5
                          else if InMiddle(ids, id) then round(0.2 / (n - 2) as real) else 0.4
  {
    var n := |ids|;
    if n > 0 {
      assert ids == [ids[0]] + ids[1..];
    }
    match model
    case FirstTouch =>
      if n > 0 {
        FirstOnly(ids, id);
      }
    case LastTouch =>
    case Linear =>
    case PositionBased =>
      if n > 2 {
        MiddleOnly(ids, id);
      }
  }

  /** The first touchpoint, and no other, is `id`. */
  ghost predicate OnlyFirst(ids: seq<Id>, id: Id) {
    forall i | 0 <= i < |ids| :: ids[i] == id <==> i == 0
  }

  /** `id` is a touchpoint that is neither the first nor the last, though it may be one of them as well. */
  ghost predicate InMiddle(ids: seq<Id>, id: Id) {
    exists i :: 0 < i < |ids| - 1 && ids[i] == id
  }

  lemma FirstOnly(ids: seq<Id>, id: Id)
    requires ids != []
    ensures OnlyFirst(ids, id) <==> ids[0] == id && id !in ids[1..]
  {
    assert forall i | 0 < i < |ids| :: ids[i] == ids[1..][i - 1];
  }

  lemma MiddleOnly(ids: seq<Id>, id: Id)
    requires |ids| > 2
    ensures InMiddle(ids, id) <==> id in ids[1..|ids| - 1]
    ensures id in ids <==> id in ids[1..|ids| - 1] || id == ids[0] || id == ids[|ids| - 1]
  {
    var n := |ids|;
    assert ids == [ids[0]] + ids[1..n - 1] + [ids[n - 1]];
    assert forall i | 0 < i < n - 1 :: ids[i] == ids[1..n - 1][i - 1];
  }

  // ----- sums -----

  lemma {:induction false} TotalSame(ids: set<Id>, credit: real)
    ensures S.Total(Same(ids, credit)) == S.Repeated(|ids|, credit)
  {
    if ids == {} {
      assert Same(ids, credit) == map[];
    } else {
      var id :| id in ids;
      TotalSame(ids - {id}, credit);
      S.TotalWithout(Same(ids, credit), id);
      assert Same(ids, credit) - {id} == Same(ids - {id}, credit);
      assert |ids| == |ids - {id}| + 1;
    }
  }

  lemma TotalAdd(w: Weights, id: Id, credit: real)
    ensures S.Total(Add(w, id, credit)) == S.Total(w) + if id in w then 0.0 else credit
  {
    if id !in w {
      S.TotalWith(w, id, credit);
    }
  }

  function Mark(condition: bool, credit: real): real {
    if condition then credit else 0.0
  }

  /** What the weights add up to, whatever ids occur twice. */
  lemma CreditTotal(ids: seq<Id>, model: Model, round: R.Round)
    requires ids != []
    ensures var n, total := |ids|, S.Total(Credit(ids, model, round));
            match model
            case FirstTouch => total == Mark(ids[0] !in ids[1..], 1.0)
            case LastTouch => total == 1.0
            case Linear => total == S.Repeated(|Elements(ids)|, round(1.0 / n as real))
            case PositionBased =>
              if n <= 2 then total == if n == 2 && ids[0] == ids[1] then 0.5 else 1.0
              else
                var middle := ids[1..n - 1];
                total == S.Repeated(|Elements(middle)|, round(0.2 / (n - 2) as real))
                         + Mark(ids[0] !in middle, 0.4) + Mark(ids[n - 1] !in middle && ids[n - 1] != ids[0], 0.4)
  {
    var n := |ids|;
    match model {
      case FirstTouch =>
        FirstTouchTotal(ids);
      case LastTouch =>
        LastTouchTotal(ids);
      case Linear =>
        TotalSame(Elements(ids), round(1.0 / n as real));
      case PositionBased =>
        if n <= 2 {
          SmallTotal(ids);
        } else {
          PositionTotal(ids, round(0.2 / (n - 2) as real));
        }
    }
  }

  lemma FirstTouchTotal(ids: seq<Id>)
    requires ids != []
    ensures S.Total(Add(Same(Elements(ids[1..]), 0.0), ids[0], 1.0)) == Mark(ids[0] !in ids[1..], 1.0)
  {
    var rest := Elements(ids[1..]);
    TotalSame(rest, 0.0);
    S.RepeatedIsProduct(|rest|, 0.0);
    TotalAdd(Same(rest, 0.0), ids[0], 1.0);
  }

  lemma LastTouchTotal(ids: seq<Id>)
    requires ids != []
    ensures S.Total(Same(Elements(ids), 0.0)[ids[|ids| - 1] := 1.0]) == 1.0
  {
    TotalSame(Elements(ids), 0.0);
    S.RepeatedIsProduct(|Elements(ids)|, 0.0);
    S.TotalReplace(Same(Elements(ids), 0.0), ids[|ids| - 1], 1.0);
  }

  lemma SmallTotal(ids: seq<Id>)
    requires 1 <= |ids| <= 2
    ensures |ids| == 1 ==> S.Total(map[ids[0] := 1.0]) == 1.0
    ensures |ids| == 2 ==>
              S.Total(map[ids[0] := 0.5, ids[1] := 0.5]) == if ids[0] == ids[1] then 0.5 else 1.0
  {
    var none: Weights := map[];
    if |ids| == 1 {
      S.TotalWith(none, ids[0], 1.0);
      assert none[ids[0] := 1.0] == map[ids[0] := 1.0];
    } else {
      S.TotalWith(none, ids[0], 0.5);
      var one := none[ids[0] := 0.5];
      assert map[ids[0] := 0.5, ids[1] := 0.5] == one[ids[1] := 0.5];
      if ids[0] != ids[1] {
        S.TotalWith(one, ids[1], 0.5);
      } else {
        assert one[ids[1] := 0.5] == one;
      }
    }
  }

  lemma PositionTotal(ids: seq<Id>, credit: real)
    requires |ids| >= 3
    ensures var n := |ids|;
            var middle := ids[1..n - 1];
            S.Total(Add(Add(Same(Elements(middle), credit), ids[0], 0.4), ids[n - 1], 0.4))
            == S.Repeated(|Elements(middle)|, credit)
               + Mark(ids[0] !in middle, 0.4) + Mark(ids[n - 1] !in middle && ids[n - 1] != ids[0], 0.4)
  {
    var n := |ids|;
    var middle := Elements(ids[1..n - 1]);
    var w := Same(middle, credit);
    TotalSame(middle, credit);
    TotalAdd(w, ids[0], 0.4);
    TotalAdd(Add(w, ids[0], 0.4), ids[n - 1], 0.4);
  }

  // ----- the weights add up to one -----

  /** No id is paid for less often than the model divides by. */
  predicate Undoubled(ids: seq<Id>, model: Model)
    requires ids != []
  {
    match model
    case FirstTouch => ids[0] !in ids[1..]
    case LastTouch => true
    case Linear => Distinct(ids)
    case PositionBased => Distinct(ids)
  }

  lemma ShareOfWhole(d: nat, n: nat, whole: real)
    requires d <= n && n > 0 && whole > 0.0
    ensures S.Repeated(d, whole / n as real) <= whole
    ensures S.Repeated(d, whole / n as real) == whole <==> d == n
  {
    var q := whole / n as real;
    S.RepeatedIsProduct(d, q);
    assert n as real * q == whole;
    PositiveQuotient(whole, n as real);
    if d < n {
      MulMonotone(d as real, n as real, q);
    }
  }

  lemma {:induction false} RepeatedNear(d: nat, a: real, b: real)
    requires -R.HALF_UNIT <= a - b <= R.HALF_UNIT
    ensures -S.Repeated(d, R.HALF_UNIT) <= S.Repeated(d, a) - S.Repeated(d, b) <= S.Repeated(d, R.HALF_UNIT)
    ensures S.Repeated(d, R.HALF_UNIT) >= 0.0
  {
    if d > 0 {
      RepeatedNear(d - 1, a, b);
    }
  }

  /** Before rounding the weights never add up to more than one, and to one exactly when no id is doubled
      where it matters. */
  lemma ExactCreditIsOneExactly(ids: seq<Id>, model: Model)
    requires ids != []
    ensures S.Total(Credit(ids, model, x => x)) <= 1.0
    ensures S.Total(Credit(ids, model, x => x)) == 1.0 <==> Undoubled(ids, model)
  {
    var n := |ids|;
    CreditTotal(ids, model, x => x);
    match model {
      case FirstTouch =>
      case LastTouch =>
      case Linear =>
        ElementCount(ids);
        ShareOfWhole(|Elements(ids)|, n, 1.0);
      case PositionBased =>
        if n > 2 {
          var middle := ids[1..n - 1];
          ElementCount(middle);
          ShareOfWhole(|Elements(middle)|, n - 2, 0.2);
          DistinctByParts(ids);
        }
    }
  }

  lemma DistinctByParts(ids: seq<Id>)
    requires |ids| >= 3
    ensures var n := |ids|;
            var middle := ids[1..n - 1];
            Distinct(ids) <==>
              Distinct(middle) && ids[0] !in middle && ids[n - 1] !in middle && ids[0] != ids[n - 1]
  {
    var n := |ids|;
    var middle := ids[1..n - 1];
    if Distinct(middle) && ids[0] !in middle && ids[n - 1] !in middle && ids[0] != ids[n - 1] {
      forall i, j | 0 <= i < j < n ensures ids[i] != ids[j] {
        if 0 < i {
          assert ids[i] == middle[i - 1];
        }
        if j < n - 1 {
          assert ids[j] == middle[j - 1];
        }
      }
    }
    if Distinct(ids) {
      forall i, j | 0 <= i < j < |middle| ensures middle[i] != middle[j] {
        assert middle[i] == ids[i + 1] && middle[j] == ids[j + 1];
      }
    }
  }

  /** Rounding moves the sum by at most half a unit for each touchpoint. */
  lemma RoundedCreditNearExact(ids: seq<Id>, model: Model, round: R.Round)
    requires ids != [] && R.RoundsToSix(round)
    ensures var rounded, exact := S.Total(Credit(ids, model, round)), S.Total(Credit(ids, model, x => x));
            -(|ids| as real * R.HALF_UNIT) <= rounded - exact <= |ids| as real * R.HALF_UNIT
  {
    var n := |ids|;
    CreditTotal(ids, model, round);
    CreditTotal(ids, model, x => x);
    match model {
      case FirstTouch =>
      case LastTouch =>
      case Linear =>
        assert R.RoundsAt(round, 1.0 / n as real);
        ElementCount(ids);
        NearProduct(|Elements(ids)|, n, round(1.0 / n as real), 1.0 / n as real);
      case PositionBased =>
        if n > 2 {
          var middle := ids[1..n - 1];
          assert R.RoundsAt(round, 0.2 / (n - 2) as real);
          ElementCount(middle);
          NearProduct(|Elements(middle)|, n, round(0.2 / (n - 2) as real), 0.2 / (n - 2) as real);
        }
    }
  }

  lemma NearProduct(d: nat, n: nat, a: real, b: real)
    requires d <= n && -R.HALF_UNIT <= a - b <= R.HALF_UNIT
    ensures -(n as real * R.HALF_UNIT) <= S.Repeated(d, a) - S.Repeated(d, b) <= n as real * R.HALF_UNIT
  {
    RepeatedNear(d, a, b);
    S.RepeatedIsProduct(d, R.HALF_UNIT);
  }

  lemma CreditInUnit(ids: seq<Id>, model: Model, round: R.Round)
    requires R.RoundsToSix(round)
    ensures forall id | id in Credit(ids, model, round) :: 0.0 <= Credit(ids, model, round)[id] <= 1.0
    ensures Credit(ids, model, round).Keys == Elements(ids)
  {
    var n := |ids|;
    if n > 0 {
      UnitQuotient(1.0, n as real);
      R.RoundKeepsUnit(round, 1.0 / n as real);
      assert ids == [ids[0]] + ids[1..];
    }
    if n > 2 {
      UnitQuotient(0.2, (n - 2) as real);
      R.RoundKeepsUnit(round, 0.2 / (n - 2) as real);
      assert ids == [ids[0]] + ids[1..n - 1] + [ids[n - 1]];
    }
  }

  lemma UnitQuotient(a: real, n: real)
    requires 0.0 <= a <= 1.0 && n >= 1.0
    ensures 0.0 <= a / n <= 1.0
  {
    ScaleOrder(1.0, a, n);
    DivideOrder(a, n, 1.0);
  }

  /** Weights lie in [0, 1] and, when no id is doubled where it matters, add up to one within half a unit
      for each touchpoint. */
  lemma WeightsAddUpToOne(ids: seq<Id>, model: Model, round: R.Round)
    requires ids != [] && R.RoundsToSix(round) && Undoubled(ids, model)
    ensures forall id | id in Credit(ids, model, round) :: 0.0 <= Credit(ids, model, round)[id] <= 1.0
    ensures 1.0 - |ids| as real * R.HALF_UNIT <= S.Total(Credit(ids, model, round)) <= 1.0 + |ids| as real * R.HALF_UNIT
  {
    CreditInUnit(ids, model, round);
    ExactCreditIsOneExactly(ids, model);
    RoundedCreditNearExact(ids, model, round);
  }

  // ----- temporal decay -----

  /** `_temporal_decay_factor` */
  function DecayFactor(age: real, halflife: real, exp: real -> real): real {
    if halflife <= 0.0 then 1.0 else exp(-(if age > 0.0 then age else 0.0) / halflife)
  }

  predicate ExpAt(exp: real -> real, x: real, y: real) {
    x < y <= 0.0 ==> 0.0 < exp(x) < exp(y) <= 1.0
  }

  ghost predicate IsExp(exp: real -> real) {
    exp(0.0) == 1.0 && forall x, y {:trigger exp(x), exp(y)} :: ExpAt(exp, x, y)
  }

  lemma DecayFactorBounds(age: real, older: real, halflife: real, exp: real -> real)
    requires IsExp(exp) && age <= older
    ensures 0.0 < DecayFactor(older, halflife, exp) <= DecayFactor(age, halflife, exp) <= 1.0
    ensures age <= 0.0 || halflife <= 0.0 ==> DecayFactor(age, halflife, exp) == 1.0
    ensures 0.0 <= age < older && halflife > 0.0 ==>
              DecayFactor(older, halflife, exp) < DecayFactor(age, halflife, exp)
  {
    if halflife > 0.0 {
      var a, b := if age > 0.0 then age else 0.0, if older > 0.0 then older else 0.0;
      OrderedAges(a, b, halflife);
      assert ExpAt(exp, -b / halflife, -a / halflife) && ExpAt(exp, -b / halflife, 0.0);
    }
  }

  /** After `k` times the half-life the factor is `exp(-k)`. */
  lemma DecayFactorAt(k: real, halflife: real, exp: real -> real)
    requires k >= 0.0 && halflife > 0.0
    ensures DecayFactor(k * halflife, halflife, exp) == exp(-k)
  {
    assert k * halflife >= 0.0;
    QuotientOfProduct(halflife, -k, -(k * halflife));
  }

  lemma OrderedAges(a: real, b: real, n: real)
    requires 0.0 <= a <= b && n > 0.0
    ensures -b / n <= -a / n <= 0.0
    ensures a == 0.0 ==> -a / n == 0.0
    ensures a < b ==> -b / n < -a / n
  {
    var p, q := -b / n, -a / n;
    assert p * n == -b && q * n == -a;
    if p > q {
      MulMonotone(q, p, n);
    }
    if q > 0.0 {
      PositiveProduct(q, n, -a);
    }
  }

  function AgeOf(ages: map<Id, real>, id: Id): real {
    if id in ages then ages[id] else 0.0
  }

  function DecayedWeight(base: real, age: real, halflife: real, exp: real -> real): real {
    base * DecayFactor(age, halflife, exp)
  }

  function Decayed(weights: Weights, ages: map<Id, real>, halflife: real, exp: real -> real): Weights {
    map id | id in weights :: DecayedWeight(weights[id], AgeOf(ages, id), halflife, exp)
  }

  ghost function WithDecay(weights: Weights, ages: map<Id, real>, halflife: real, exp: real -> real,
                           round: R.Round): Weights {
    var decayed := Decayed(weights, ages, halflife, exp);
    var total := S.Total(decayed);
    if total <= 0.0 then weights else map id | id in decayed :: round(decayed[id] / total)
  }

  /** `_apply_temporal_decay` */
  method ApplyTemporalDecay(weights: Weights, ages: map<Id, real>, halflife: real, exp: real -> real, round: R.Round)
    returns (r: Weights)
    ensures r == WithDecay(weights, ages, halflife, exp, round)
  {
    var decayed := Decayed(weights, ages, halflife, exp);
    var total := Sum(decayed);
    if total <= 0.0 {
      return weights;
    }
    r := map id | id in decayed :: round(decayed[id] / total);
  }

  method Sum(m: Weights) returns (total: real)
    ensures total == S.Total(m)
  {
    total := 0.0;
    var left := m;
    while left != map[]
      invariant left.Keys <= m.Keys
      invariant total + S.Total(left) == S.Total(m)
      decreases |left|
    {
      var id :| id in left;
      S.TotalWithout(left, id);
      total := total + left[id];
      left := left - {id};
    }
  }

  lemma DecayedSign(weights: Weights, ages: map<Id, real>, halflife: real, exp: real -> real)
    requires IsExp(exp) && S.NonNegative(weights)
    ensures S.NonNegative(Decayed(weights, ages, halflife, exp))
    ensures S.Total(Decayed(weights, ages, halflife, exp)) == 0.0 <==> S.Total(weights) == 0.0
  {
    var decayed := Decayed(weights, ages, halflife, exp);
    forall id | id in weights
      ensures decayed[id] >= 0.0 && (decayed[id] == 0.0 <==> weights[id] == 0.0)
    {
      DecayedWeightSign(weights[id], AgeOf(ages, id), halflife, exp);
    }
    S.TotalNonNegative(weights);
    S.TotalNonNegative(decayed);
  }

  lemma DecayedWeightSign(w: real, age: real, halflife: real, exp: real -> real)
    requires IsExp(exp) && w >= 0.0
    ensures DecayedWeight(w, age, halflife, exp) >= 0.0
    ensures DecayedWeight(w, age, halflife, exp) == 0.0 <==> w == 0.0
  {
    DecayFactorBounds(age, age, halflife, exp);
    if w > 0.0 {
      PositiveProduct(w, DecayFactor(age, halflife, exp), DecayedWeight(w, age, halflife, exp));
    }
  }

  /** The shares of the decayed total, before they are rounded. */
  ghost function Normalised(decayed: Weights, total: real): Weights
    requires total != 0.0
  {
    map id | id in decayed :: decayed[id] / total
  }

  lemma NormalisedIsDistribution(decayed: Weights)
    requires S.NonNegative(decayed) && S.Total(decayed) > 0.0
    ensures S.Total(Normalised(decayed, S.Total(decayed))) == 1.0
    ensures forall id | id in decayed :: 0.0 <= Normalised(decayed, S.Total(decayed))[id] <= 1.0
  {
    var total := S.Total(decayed);
    var f: real -> real := x => if total != 0.0 then x / total else 0.0;
    forall x, y ensures S.AddsAt(f, x, y) {
      AddQuotients(x, y, total);
    }
    S.TotalMapped(Normalised(decayed, total), decayed, f);
    QuotientOfProduct(total, 1.0, total);
    forall id | id in decayed ensures 0.0 <= Normalised(decayed, total)[id] <= 1.0 {
      S.ValueBelowTotal(decayed, id);
      DivideOrder(decayed[id], total, 1.0);
    }
  }

  lemma {:induction false} TotalNear(a: Weights, b: Weights)
    requires a.Keys == b.Keys && forall id | id in a :: -R.HALF_UNIT <= a[id] - b[id] <= R.HALF_UNIT
    ensures -S.Repeated(|a|, R.HALF_UNIT) <= S.Total(a) - S.Total(b) <= S.Repeated(|a|, R.HALF_UNIT)
    decreases |a|
  {
    if a == map[] {
      assert b == map[];
    } else {
      var id := S.Pick(a);
      var rest := a - {id};
      TotalNear(rest, b - {id});
      S.TotalWithout(b, id);
      assert |a| == |rest| + 1 by {
        assert a.Keys == rest.Keys + {id};
      }
    }
  }

  /** After decay the weights lie in [0, 1] and add up to one within half a unit for each touchpoint,
      whatever they added up to before, unless all were zero, and then they stay as they are. */
  lemma DecayRestoresSum(weights: Weights, ages: map<Id, real>, halflife: real, exp: real -> real, round: R.Round)
    requires IsExp(exp) && R.RoundsToSix(round) && S.NonNegative(weights)
    ensures var r := WithDecay(weights, ages, halflife, exp, round);
            if S.Total(weights) == 0.0 then r == weights
            else
              && r.Keys == weights.Keys
              && (forall id | id in r :: 0.0 <= r[id] <= 1.0)
              && 1.0 - S.Repeated(|r|, R.HALF_UNIT) <= S.Total(r) <= 1.0 + S.Repeated(|r|, R.HALF_UNIT)
  {
    DecayedSign(weights, ages, halflife, exp);
    var decayed := Decayed(weights, ages, halflife, exp);
    var total := S.Total(decayed);
    S.TotalNonNegative(decayed);
    if total > 0.0 {
      NormalisedIsDistribution(decayed);
      var r, shares := WithDecay(weights, ages, halflife, exp, round), Normalised(decayed, total);
      forall id | id in r ensures 0.0 <= r[id] <= 1.0 && -R.HALF_UNIT <= r[id] - shares[id] <= R.HALF_UNIT {
        R.RoundKeepsUnit(round, shares[id]);
      }
      TotalNear(r, shares);
    }
  }

  /** Before rounding, what is left of two weights stands in the proportion of the weights times their
      factors. */
  lemma DecayIsProportional(weights: Weights, ages: map<Id, real>, halflife: real, exp: real -> real, exact: R.Round,
                            a: Id, b: Id, leftOfA: real, leftOfB: real)
    requires IsExp(exp) && S.NonNegative(weights) && S.Total(weights) > 0.0 && a in weights && b in weights
    requires forall x :: exact(x) == x
    requires leftOfA == weights[a] * DecayFactor(if a in ages then ages[a] else 0.0, halflife, exp)
    requires leftOfB == weights[b] * DecayFactor(if b in ages then ages[b] else 0.0, halflife, exp)
    ensures var r := WithDecay(weights, ages, halflife, exp, exact);
            a in r && b in r && Proportional(r[a], r[b], leftOfA, leftOfB)
  {
    DecayedSign(weights, ages, halflife, exp);
    var decayed := Decayed(weights, ages, halflife, exp);
    S.TotalNonNegative(decayed);
    var r := WithDecay(weights, ages, halflife, exp, exact);
    assert decayed[a] == leftOfA && decayed[b] == leftOfB;
    CrossShares(r[a], r[b], leftOfA, leftOfB, S.Total(decayed));
  }

  /** `x` is to `y` as `p` is to `q`. */
  ghost predicate Proportional(x: real, y: real, p: real, q: real) {
    x * q == y * p
  }

  lemma CrossShares(x: real, y: real, p: real, q: real, n: real)
    requires n > 0.0 && x == p / n && y == q / n
    ensures Proportional(x, y, p, q)
  {
    assert x * n == p && y * n == q;
    assert x * (y * n) == y * (x * n);
  }

  /** Of two touchpoints with the same weight, the one with the older chain does not end up ahead. */
  lemma OlderIsNotAhead(weights: Weights, ages: map<Id, real>, halflife: real, exp: real -> real, round: R.Round,
                        older: Id, newer: Id)
    requires IsExp(exp) && R.RoundsToSix(round) && S.NonNegative(weights)
    requires older in weights && newer in weights && weights[older] == weights[newer]
    requires AgeOf(ages, newer) <= AgeOf(ages, older)
    ensures var decayed := WithDecay(weights, ages, halflife, exp, round);
            decayed[older] <= decayed[newer]
  {
    var decayed := Decayed(weights, ages, halflife, exp);
    var total := S.Total(decayed);
    if total > 0.0 {
      OlderDecaysMore(weights[older], AgeOf(ages, newer), AgeOf(ages, older), halflife, exp);
      RoundedOrder(decayed[older], decayed[newer], total, round);
    }
  }

  lemma OlderDecaysMore(w: real, age: real, older: real, halflife: real, exp: real -> real)
    requires IsExp(exp) && w >= 0.0 && age <= older
    ensures DecayedWeight(w, older, halflife, exp) <= DecayedWeight(w, age, halflife, exp)
  {
    DecayFactorBounds(age, older, halflife, exp);
    KeepOrder(w, DecayFactor(older, halflife, exp), DecayFactor(age, halflife, exp));
  }

  lemma RoundedOrder(a: real, b: real, n: real, round: R.Round)
    requires R.RoundsToSix(round) && a <= b && n > 0.0
    ensures round(a / n) <= round(b / n)
  {
    OrderedQuotients(a, b, n);
    assert R.OrderedAt(round, a / n, b / n);
  }

  lemma KeepOrder(w: real, a: real, b: real)
    requires w >= 0.0 && a <= b
    ensures w * a <= w * b
  {
    if w > 0.0 {
      ScaleOrder(w, a, b);
    }
  }

}
