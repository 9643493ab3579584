/** The `evaluate` admin action.
    Precision, recall and NDCG of returned rankings against labelled sets.
    Their averages over the cases that were not skipped, and the F1 of the averages.
    The discount of a rank is any that falls; the source's is one of them. */
module Ranking {

  import opened Options
  import opened RealArithmetic
  import opened Sequences

  /** The weight of each rank, counted from 1; the source's is `1 / log2(rank + 1)`. */
  type Discount = nat -> real

  ghost predicate Discounts(d: Discount) {
    && (forall r: nat | r >= 1 :: d(r) > 0.0)
    && (forall a: nat, b: nat | 1 <= a < b :: d(a) > d(b))
  }

  function Relevant(ids: seq<string>, expected: set<string>): nat {
    if ids == [] then 0
    else Relevant(ids[..|ids| - 1], expected) + if ids[|ids| - 1] in expected then 1 else 0
  }

  function Gain(ids: seq<string>, expected: set<string>, d: Discount): real {
    if ids == [] then 0.0
    else Gain(ids[..|ids| - 1], expected, d) + if ids[|ids| - 1] in expected then d(|ids|) else 0.0
  }

  function IdealGain(n: nat, d: Discount): real {
    if n == 0 then 0.0 else IdealGain(n - 1, d) + d(n)
  }

  function IdealCount(expected: set<string>, k: int): nat {
    if k <= 0 then 0 else if |expected| <= k then |expected| else k
  }

  datatype Quality = Quality(precision: real, recall: real, ndcg: real, returned: nat, relevant: nat)

  function QualityOf(candidates: seq<string>, expected: set<string>, k: int, d: Discount): Quality
    requires expected != {}
  {
    var ids := Take(candidates, k);
    var hits := Relevant(ids, expected);
    var ideal := IdealGain(IdealCount(expected, k), d);
    Quality(if ids != [] then hits as real / |ids| as real else 0.0,
            hits as real / |expected| as real,
            if ideal > 0.0 then Gain(ids, expected, d) / ideal else 0.0,
            |ids|, hits)
  }

  /** One test case, with its loops. */
  method EvaluateCase(candidates: seq<string>, expected: set<string>, k: int, d: Discount) returns (q: Quality)
    requires expected != {}
    ensures q == QualityOf(candidates, expected, k, d)
  {
    var ids := Take(candidates, k);
    var hits, dcg := 0, 0.0;
    for i := 0 to |ids|
      invariant hits == Relevant(ids[..i], expected) && dcg == Gain(ids[..i], expected, d)
    {
      assert ids[..i + 1][..i] == ids[..i];
      if ids[i] in expected {
        hits := hits + 1;
        dcg := dcg + d(i + 1);
      }
    }
    assert ids[..|ids|] == ids;
    var idcg := 0.0;
    for r := 1 to IdealCount(expected, k) + 1
      invariant idcg == IdealGain(r - 1, d)
    {
      idcg := idcg + d(r);
    }
    q := Quality(if ids != [] then hits as real / |ids| as real else 0.0,
                 hits as real / |expected| as real,
                 if idcg > 0.0 then dcg / idcg else 0.0,
                 |ids|, hits);
  }

  /** The positions that hold a relevant id. */
  ghost function Hits(ids: seq<string>, expected: set<string>): set<int> {
    set i | 0 <= i < |ids| && ids[i] in expected
  }

  lemma {:induction false} RelevantMeaning(ids: seq<string>, expected: set<string>)
    ensures Relevant(ids, expected) == |Hits(ids, expected)|
  {
    if ids != [] {
      var init, last := ids[..|ids| - 1], |ids| - 1;
      RelevantMeaning(init, expected);
      assert Hits(ids, expected) == Hits(init, expected) + if ids[last] in expected then {last} else {};
    }
  }

  /** Precision is the share of the returned that is relevant, recall the share of the expected that was
      returned, and NDCG the share of the ideal gain. */
  lemma QualityMeaning(candidates: seq<string>, expected: set<string>, k: int, d: Discount)
    requires expected != {}
    ensures var q, ids := QualityOf(candidates, expected, k, d), Take(candidates, k);
            && q.returned == |ids| && q.relevant == |Hits(ids, expected)|
            && (if ids == [] then q.precision == 0.0 else IsShare(q.precision, q.relevant as real, |ids| as real))
            && IsShare(q.recall, q.relevant as real, |expected| as real)
            && (k > 0 && Discounts(d) ==>
                  var n := if k < |expected| then k else |expected|;
                  IsShare(q.ndcg, Gain(ids, expected, d), IdealGain(n, d)))
            && (k <= 0 ==> q.ndcg == 0.0)
  {
    var ids := Take(candidates, k);
    var hits := Relevant(ids, expected);
    RelevantMeaning(ids, expected);
    ShareOf(hits as real, |expected| as real);
    if ids != [] {
      ShareOf(hits as real, |ids| as real);
    }
    if k > 0 && Discounts(d) {
      IdealMonotone(0, IdealCount(expected, k), d);
      ShareOf(Gain(ids, expected, d), IdealGain(IdealCount(expected, k), d));
    }
  }

  lemma {:induction false} NoGain(ids: seq<string>, expected: set<string>, d: Discount)
    requires forall j | 0 <= j < |ids| :: ids[j] !in expected
    ensures Gain(ids, expected, d) == 0.0
  {
    if ids != [] {
      NoGain(ids[..|ids| - 1], expected, d);
    }
  }

  /** One relevant id gains what its rank, counted from 1, is worth. */
  lemma {:induction false} SingleHitGain(ids: seq<string>, expected: set<string>, d: Discount, i: nat)
    requires i < |ids| && forall j | 0 <= j < |ids| :: ids[j] in expected <==> j == i
    ensures Gain(ids, expected, d) == d(i + 1)
  {
    if i < |ids| - 1 {
      SingleHitGain(ids[..|ids| - 1], expected, d, i);
    } else {
      NoGain(ids[..|ids| - 1], expected, d);
    }
  }

  // ----- bounds -----

  /** No relevant id is returned twice. */
  ghost predicate RelevantOnce(ids: seq<string>, expected: set<string>) {
    forall i, j | 0 <= i < j < |ids| && ids[i] in expected :: ids[i] != ids[j]
  }

  ghost function RelevantSet(ids: seq<string>, expected: set<string>): (r: set<string>)
    ensures r <= expected && forall x | x in r :: x in ids
  {
    if ids == [] then {}
    else
      var last := ids[|ids| - 1];
      RelevantSet(ids[..|ids| - 1], expected) + if last in expected then {last} else {}
  }

  lemma {:induction false} OnceCounts(ids: seq<string>, expected: set<string>)
    requires RelevantOnce(ids, expected)
    ensures Relevant(ids, expected) == |RelevantSet(ids, expected)| <= |expected|
  {
    SubsetSize(RelevantSet(ids, expected), expected);
    if ids != [] {
      var init, last := ids[..|ids| - 1], ids[|ids| - 1];
      OnceCounts(init, expected);
      if last in expected {
        forall i | 0 <= i < |init| ensures init[i] != last {
          assert ids[i] == init[i] && ids[|ids| - 1] == last;
        }
        assert last !in RelevantSet(init, expected);
      }
    }
  }

  lemma {:induction false} RelevantBound(ids: seq<string>, expected: set<string>)
    ensures Relevant(ids, expected) <= |ids|
  {
    if ids != [] {
      RelevantBound(ids[..|ids| - 1], expected);
    }
  }

  lemma {:induction false} IdealMonotone(a: nat, b: nat, d: Discount)
    requires Discounts(d) && a <= b
    ensures 0.0 <= IdealGain(a, d) <= IdealGain(b, d)
    ensures a < b ==> IdealGain(a, d) < IdealGain(b, d)
    decreases b
  {
    if a < b {
      IdealMonotone(a, b - 1, d);
    } else if a > 0 {
      IdealMonotone(a - 1, a - 1, d);
    }
  }

  /** The first `n` positions are filled, all with relevant ids. */
  ghost predicate TopRelevant(ids: seq<string>, expected: set<string>, n: nat) {
    n <= |ids| && forall i | 0 <= i < n :: ids[i] in expected
  }

  /** Relevant ids come before all others. */
  ghost predicate Leading(ids: seq<string>, expected: set<string>) {
    TopRelevant(ids, expected, Relevant(ids, expected))
  }

  /** A ranking gains at most what as many relevant ids gain at the top, and exactly that when its
      relevant ids are at the top. */
  lemma {:induction false} GainBound(ids: seq<string>, expected: set<string>, d: Discount)
    requires Discounts(d)
    ensures 0.0 <= Gain(ids, expected, d) <= IdealGain(Relevant(ids, expected), d)
    ensures Gain(ids, expected, d) == IdealGain(Relevant(ids, expected), d) <==> Leading(ids, expected)
  {
    if ids != [] {
      var init, last := ids[..|ids| - 1], ids[|ids| - 1];
      GainBound(init, expected, d);
      RelevantBound(init, expected);
      var n := Relevant(init, expected);
      if last in expected {
        if n + 1 < |ids| {
          assert d(|ids|) < d(n + 1);
          if Leading(ids, expected) {
            AllRelevant(ids, expected, n + 1);
            assert false;
          }
        } else {
          AllLeading(init, expected);
          assert forall i | 0 <= i < |init| :: init[i] == ids[i];
        }
      } else {
        assert forall i | 0 <= i < |init| :: init[i] == ids[i];
        assert Leading(ids, expected) <==> Leading(init, expected);
      }
    }
  }

  lemma {:induction false} AllLeading(ids: seq<string>, expected: set<string>)
    requires Relevant(ids, expected) == |ids|
    ensures Leading(ids, expected)
  {
    if ids != [] {
      RelevantBound(ids[..|ids| - 1], expected);
      AllLeading(ids[..|ids| - 1], expected);
    }
  }

  /** When the first `n` are relevant and the last of more is too, more than `n` are. */
  lemma {:induction false} AllRelevant(ids: seq<string>, expected: set<string>, n: nat)
    requires n < |ids| && ids[|ids| - 1] in expected && forall i | 0 <= i < n :: ids[i] in expected
    ensures Relevant(ids, expected) > n
  {
    FirstRelevant(ids[..|ids| - 1], expected, n);
  }

  lemma {:induction false} FirstRelevant(ids: seq<string>, expected: set<string>, n: nat)
    requires n <= |ids| && forall i | 0 <= i < n :: ids[i] in expected
    ensures Relevant(ids, expected) >= n
  {
    if n > 0 {
      FirstRelevant(ids[..|ids| - 1], expected, if n < |ids| then n else n - 1);
    }
  }

  lemma TopBound(candidates: seq<string>, expected: set<string>, k: int)
    requires RelevantOnce(Take(candidates, k), expected)
    ensures k > 0 ==> Relevant(Take(candidates, k), expected) <= IdealCount(expected, k)
  {
    OnceCounts(Take(candidates, k), expected);
    RelevantBound(Take(candidates, k), expected);
  }

  /** Without repeated relevant ids every measure lies in [0, 1]. */
  lemma MeasuresInUnit(candidates: seq<string>, expected: set<string>, k: int, d: Discount)
    requires Discounts(d) && expected != {} && RelevantOnce(Take(candidates, k), expected)
    ensures var q := QualityOf(candidates, expected, k, d);
            0.0 <= q.precision <= 1.0 && 0.0 <= q.recall <= 1.0 && 0.0 <= q.ndcg <= 1.0
  {
    var ids := Take(candidates, k);
    OnceCounts(ids, expected);
    RelevantBound(ids, expected);
    GainBound(ids, expected, d);
    TopBound(candidates, expected, k);
    if IdealGain(IdealCount(expected, k), d) > 0.0 {
      IdealMonotone(Relevant(ids, expected), IdealCount(expected, k), d);
      RatioInUnit(Gain(ids, expected, d), IdealGain(IdealCount(expected, k), d));
    }
    RatioInUnit(Relevant(ids, expected) as real, |expected| as real);
    if ids != [] {
      RatioInUnit(Relevant(ids, expected) as real, |ids| as real);
    }
  }

  lemma RatioInUnit(a: real, b: real)
    requires 0.0 <= a <= b && b > 0.0
    ensures 0.0 <= a / b <= 1.0
    ensures a / b == 1.0 <==> a == b
  {
  }

  /** NDCG is 1 exactly when the first min(|expected|, k) positions are all relevant. */
  lemma NdcgOneExactly(candidates: seq<string>, expected: set<string>, k: int, d: Discount)
    requires Discounts(d) && expected != {} && k > 0 && RelevantOnce(Take(candidates, k), expected)
    ensures var ids, n := Take(candidates, k), IdealCount(expected, k);
            QualityOf(candidates, expected, k, d).ndcg == 1.0 <==> TopRelevant(ids, expected, n)
  {
    var ids, n := Take(candidates, k), IdealCount(expected, k);
    var hits := Relevant(ids, expected);
    GainBound(ids, expected, d);
    TopBound(candidates, expected, k);
    IdealMonotone(0, n, d);
    assert n > 0;
    IdealMonotone(hits, n, d);
    RatioInUnit(Gain(ids, expected, d), IdealGain(n, d));
    if TopRelevant(ids, expected, n) {
      FirstRelevant(ids, expected, n);
      assert hits == n;
    }
  }

  // ----- repeated ids -----

  lemma {:induction false} GainAtLeast(ids: seq<string>, expected: set<string>, d: Discount, low: real)
    requires forall r: nat | r >= 1 :: d(r) >= low
    ensures Gain(ids, expected, d) >= Relevant(ids, expected) as real * low
  {
    if ids != [] {
      GainAtLeast(ids[..|ids| - 1], expected, d, low);
    }
  }

  lemma {:induction false} IdealAtMost(n: nat, d: Discount, high: real)
    requires forall r: nat | r >= 1 :: d(r) <= high
    ensures IdealGain(n, d) <= n as real * high
  {
    if n > 0 {
      IdealAtMost(n - 1, d, high);
    }
  }

  /** A discount that hardly discounts. */
  function Flat(n: nat): Discount {
    (r: nat) => (n + 1) as real + 1.0 / (r + 1) as real
  }

  lemma FlatDiscounts(n: nat)
    ensures Discounts(Flat(n))
    ensures forall r: nat | r >= 1 :: (n + 1) as real <= Flat(n)(r) <= (n + 2) as real
  {
    forall a: nat, b: nat | 1 <= a < b ensures Flat(n)(a) > Flat(n)(b) {}
    forall r: nat | r >= 1 ensures (n + 1) as real <= Flat(n)(r) <= (n + 2) as real {}
  }

  lemma MoreHitsGainMore(ids: seq<string>, expected: set<string>, n: nat)
    requires Relevant(ids, expected) > n
    ensures Gain(ids, expected, Flat(n)) > IdealGain(n, Flat(n))
  {
    FlatDiscounts(n);
    GainAtLeast(ids, expected, Flat(n), (n + 1) as real);
    IdealAtMost(n, Flat(n), (n + 2) as real);
  }

  /** Whatever the discount, the gain stays within the ideal exactly when no more relevant ids are
      returned than the ideal counts; repeated ids can break this. */
  lemma NdcgBoundedExactly(ids: seq<string>, expected: set<string>, n: nat)
    ensures (forall d | Discounts(d) :: Gain(ids, expected, d) <= IdealGain(n, d)) <==> Relevant(ids, expected) <= n
  {
    if Relevant(ids, expected) <= n {
      forall d | Discounts(d) ensures Gain(ids, expected, d) <= IdealGain(n, d) {
        GainBound(ids, expected, d);
        IdealMonotone(Relevant(ids, expected), n, d);
      }
    } else {
      FlatDiscounts(n);
      MoreHitsGainMore(ids, expected, n);
    }
  }

  /** Relevant ids in the first `n` positions gain at least the ideal gain of `n`, for every discount. */
  lemma {:induction false} TopGain(ids: seq<string>, expected: set<string>, n: nat, d: Discount)
    requires Discounts(d) && TopRelevant(ids, expected, n)
    ensures Gain(ids, expected, d) >= IdealGain(n, d)
    decreases |ids|
  {
    if ids != [] {
      var init := ids[..|ids| - 1];
      assert forall i | 0 <= i < |init| :: init[i] == ids[i];
      TopGain(init, expected, if n < |ids| then n else n - 1, d);
    }
  }

  /** With one relevant id more at the top than the ideal counts, NDCG exceeds one whatever the discount, so with
      the source's too. */
  lemma NdcgAboveOne(candidates: seq<string>, expected: set<string>, k: int, d: Discount)
    requires Discounts(d) && expected != {} && k > 0
    requires TopRelevant(Take(candidates, k), expected, IdealCount(expected, k) + 1)
    ensures Gain(Take(candidates, k), expected, d) > IdealGain(IdealCount(expected, k), d)
    ensures QualityOf(candidates, expected, k, d).ndcg > 1.0
  {
    var ids, n := Take(candidates, k), IdealCount(expected, k);
    TopGain(ids, expected, n + 1, d);
    assert n > 0;
    IdealMonotone(0, n, d);
    assert d(n + 1) > 0.0;
    AboveOne(Gain(ids, expected, d), IdealGain(n, d));
  }

  lemma AboveOne(a: real, b: real)
    requires a > b > 0.0
    ensures a / b > 1.0
  {
  }

  /** One relevant id, returned twice. */
  lemma RepeatedIdExceedsOne(x: string, k: int, d: Discount)
    requires Discounts(d) && k >= 2
    ensures QualityOf([x, x], {x}, k, d).ndcg > 1.0
  {
    assert IdealCount({x}, k) == 1 && Take([x, x], k) == [x, x];
    NdcgAboveOne([x, x], {x}, k, d);
  }

  // ----- averages -----

  /** A labelled case and what the match returned; None when it raised. */
  datatype Case = Case(expected: set<string>, returned: Option<seq<string>>)

  predicate Evaluated(c: Case) { c.expected != {} && c.returned.Some? }

  datatype Totals = Totals(precision: real, recall: real, ndcg: real, count: nat)

  function TotalsOf(cases: seq<Case>, k: int, d: Discount): Totals {
    if cases == [] then Totals(0.0, 0.0, 0.0, 0)
    else
      var t, c := TotalsOf(cases[..|cases| - 1], k, d), cases[|cases| - 1];
      if !Evaluated(c) then t
      else
        var q := QualityOf(c.returned.value, c.expected, k, d);
        Totals(t.precision + q.precision, t.recall + q.recall, t.ndcg + q.ndcg, t.count + 1)
  }

  function Average(total: real, count: nat): real {
    if count > 0 then total / count as real else 0.0
  }

  function F1(precision: real, recall: real): real {
    if precision + recall > 0.0 then 2.0 * precision * recall / (precision + recall) else 0.0
  }

  datatype Report = Report(precision: real, recall: real, f1: real, ndcg: real, evaluated: nat)

  method Evaluate(cases: seq<Case>, k: int, d: Discount) returns (r: Report)
    ensures var t := TotalsOf(cases, k, d);
            var p, c := Average(t.precision, t.count), Average(t.recall, t.count);
            r == Report(p, c, F1(p, c), Average(t.ndcg, t.count), t.count)
  {
    var precision, recall, ndcg, count := 0.0, 0.0, 0.0, 0;
    for i := 0 to |cases|
      invariant TotalsOf(cases[..i], k, d) == Totals(precision, recall, ndcg, count)
    {
      assert cases[..i + 1][..i] == cases[..i];
      if cases[i].expected == {} || cases[i].returned.None? {
        continue;
      }
      var q := EvaluateCase(cases[i].returned.value, cases[i].expected, k, d);
      precision, recall, ndcg := precision + q.precision, recall + q.recall, ndcg + q.ndcg;
      count := count + 1;
    }
    assert cases[..|cases|] == cases;
    var p, c := Average(precision, count), Average(recall, count);
    r := Report(p, c, F1(p, c), Average(ndcg, count), count);
  }

  /** The totals of two lists of cases add up. */
  lemma {:induction false} TotalsAddUp(a: seq<Case>, b: seq<Case>, k: int, d: Discount)
    ensures var s, t, all := TotalsOf(a, k, d), TotalsOf(b, k, d), TotalsOf(a + b, k, d);
            && all.precision == s.precision + t.precision && all.recall == s.recall + t.recall
            && all.ndcg == s.ndcg + t.ndcg && all.count == s.count + t.count
    decreases |b|
  {
    if b == [] {
      assert a + b == a;
    } else {
      assert (a + b)[..|a + b| - 1] == a + b[..|b| - 1];
      TotalsAddUp(a, b[..|b| - 1], k, d);
    }
  }

  /** A case counts unless it has no labels or raised; one case alone is averaged to its own measures. */
  lemma TotalsOfOne(c: Case, k: int, d: Discount)
    ensures var t := TotalsOf([c], k, d);
            if c.expected == {} || c.returned.None? then t.count == 0
            else
              var q := QualityOf(c.returned.value, c.expected, k, d);
              && t.count == 1 && Average(t.precision, 1) == q.precision
              && Average(t.recall, 1) == q.recall && Average(t.ndcg, 1) == q.ndcg
  {
    assert [c][..0] == [];
  }

  lemma AverageMeaning(total: real, count: nat)
    ensures if count == 0 then Average(total, count) == 0.0 else Average(total, count) * count as real == total
  {
  }

  /** The harmonic mean. */
  lemma F1Meaning(p: real, c: real)
    requires p >= 0.0 && c >= 0.0
    ensures F1(p, c) * (p + c) == 2.0 * p * c && (p == c ==> F1(p, c) == p)
  {
    if p == c && p > 0.0 {
      QuotientOfProduct(p + c, p, 2.0 * p * c);
    }
  }

  lemma {:induction false} TotalsBound(cases: seq<Case>, k: int, d: Discount)
    requires Discounts(d)
    requires forall c | c in cases && Evaluated(c) :: RelevantOnce(Take(c.returned.value, k), c.expected)
    ensures var t := TotalsOf(cases, k, d);
            && 0.0 <= t.precision <= t.count as real && 0.0 <= t.recall <= t.count as real
            && 0.0 <= t.ndcg <= t.count as real
  {
    if cases != [] {
      var c := cases[|cases| - 1];
      TotalsBound(cases[..|cases| - 1], k, d);
      if Evaluated(c) {
        MeasuresInUnit(c.returned.value, c.expected, k, d);
      }
    }
  }

  /** F1 lies between the smaller and the larger of precision and recall. */
  lemma F1Between(p: real, c: real)
    requires 0.0 <= p <= 1.0 && 0.0 <= c <= 1.0
    ensures (if p <= c then p else c) <= F1(p, c) <= (if p <= c then c else p)
  {
    if p + c > 0.0 {
      var low, high := if p <= c then p else c, if p <= c then c else p;
      var twice := 2.0 * p * c;
      MeanBetween(low, high, twice, p + c);
      QuotientBetween(low, twice, high, p + c);
    }
  }

  lemma MeanBetween(low: real, high: real, twice: real, sum: real)
    requires 0.0 <= low <= high && twice == 2.0 * low * high && sum == low + high
    ensures low * sum <= twice <= high * sum
  {
    var product := low * high;
    assert twice == product + product;
    Distribute(low, low, high);
    Distribute(high, low, high);
    if low > 0.0 {
      ScaleOrder(low, low, high);
      ScaleOrder(high, low, high);
    }
  }

  lemma QuotientBetween(low: real, x: real, high: real, s: real)
    requires s > 0.0 && low * s <= x <= high * s
    ensures low <= x / s <= high
  {
    var q := x / s;
    assert q * s == x;
    if q < low {
      MulMonotone(q, low, s);
    }
    if q > high {
      MulMonotone(high, q, s);
    }
  }

  /** The reported averages lie in [0, 1]. */
  lemma ReportInUnit(cases: seq<Case>, k: int, d: Discount)
    requires Discounts(d)
    requires forall c | c in cases && Evaluated(c) :: RelevantOnce(Take(c.returned.value, k), c.expected)
    ensures var t := TotalsOf(cases, k, d);
            var p, c := Average(t.precision, t.count), Average(t.recall, t.count);
            && 0.0 <= p <= 1.0 && 0.0 <= c <= 1.0 && 0.0 <= Average(t.ndcg, t.count) <= 1.0
            && 0.0 <= F1(p, c) <= 1.0
  {
    TotalsBound(cases, k, d);
    var t := TotalsOf(cases, k, d);
    if t.count > 0 {
      RatioInUnit(t.precision, t.count as real);
      RatioInUnit(t.recall, t.count as real);
      RatioInUnit(t.ndcg, t.count as real);
    }
    F1Between(Average(t.precision, t.count), Average(t.recall, t.count));
  }
}
