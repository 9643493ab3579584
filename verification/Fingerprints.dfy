/** `compute_fingerprint`.
    Bucket frequencies, dimension dominance, entropy and concentration of a batch of scored
    candidates.
    A dictionary of counts is filled by one loop, and read in several. */
module Fingerprints {

  import opened Options
  import opened Counting
  import opened RealArithmetic
  import opened Sequences
  import R = Rounding
  import S = MapSums

  /** `score` is None when it is missing or not a number; `dims` holds the numeric dimension scores in the
      order of the candidate's own dictionary. */
  datatype Candidate = Candidate(score: Option<real>, dims: seq<(Name, real)>)

  datatype Fingerprint = Fingerprint(
    samples: nat, scores: map<Name, real>, dominance: map<Name, real>,
    entropy: real, top: Option<Name>, concentration: real)

  datatype Result = Ok(fingerprint: Fingerprint) | ValueError | IndexError

  // ----- buckets -----

  function ScoreOf(c: Candidate): real {
    match c.score
    case Some(x) => Clamp(x)
    case None => 0.0
  }

  predicate Fits(boundaries: seq<real>, labels: seq<Name>) {
    labels != [] && |boundaries| == |labels| + 1
  }

  /** The first bucket from `i` on whose upper boundary lies above the score, or the last one. */
  function BucketFrom(score: real, boundaries: seq<real>, labels: seq<Name>, i: nat): (bucket: nat)
    requires Fits(boundaries, labels) && i <= |labels|
    ensures bucket < |labels| && (i < |labels| ==> i <= bucket)
    decreases |labels| - i
  {
    if i == |labels| then |labels| - 1
    else if score < boundaries[i + 1] then i
    else BucketFrom(score, boundaries, labels, i + 1)
  }

  function BucketOf(c: Candidate, boundaries: seq<real>, labels: seq<Name>): Name
    requires Fits(boundaries, labels)
  {
    labels[BucketFrom(ScoreOf(c), boundaries, labels, 0)]
  }

  predicate Ascending(boundaries: seq<real>) {
    forall i, j | 0 <= i < j < |boundaries| :: boundaries[i] < boundaries[j]
  }

  lemma {:induction false} BucketFromExactly(score: real, boundaries: seq<real>, labels: seq<Name>, i: nat, k: nat)
    requires Fits(boundaries, labels) && Ascending(boundaries) && i <= k < |labels|
    requires i == 0 || score >= boundaries[i]
    ensures BucketFrom(score, boundaries, labels, i) == k <==>
            (k == 0 || score >= boundaries[k]) && (k == |labels| - 1 || score < boundaries[k + 1])
    decreases |labels| - i
  {
    if score >= boundaries[i + 1] && i + 1 < |labels| {
      if i < k {
        BucketFromExactly(score, boundaries, labels, i + 1, k);
      }
    }
  }

  /** Bucket k takes the half-open interval between its boundaries, but the first and the last boundary
      are never a limit. */
  lemma BucketExactly(score: real, boundaries: seq<real>, labels: seq<Name>, k: nat)
    requires Fits(boundaries, labels) && Ascending(boundaries) && k < |labels|
    ensures BucketFrom(score, boundaries, labels, 0) == k <==>
            (k == 0 || score >= boundaries[k]) && (k == |labels| - 1 || score < boundaries[k + 1])
  {
    BucketFromExactly(score, boundaries, labels, 0, k);
  }

  /** `_bucket_label` */
  method BucketLabel(score: real, boundaries: seq<real>, labels: seq<Name>) returns (bucket: Name)
    requires Fits(boundaries, labels)
    ensures bucket == labels[BucketFrom(score, boundaries, labels, 0)]
  {
    for i := 0 to |labels|
      invariant BucketFrom(score, boundaries, labels, 0) == BucketFrom(score, boundaries, labels, i)
    {
      if score < boundaries[i + 1] {
        return labels[i];
      }
    }
    return labels[|labels| - 1];
  }

  // ----- the most common name -----

  /** The name at `k` is the first of those counted most often. */
  ghost predicate MostCommonAt(names: seq<Name>, items: seq<Name>, k: nat) {
    && k < |names|
    && (forall j | 0 <= j < |names| :: Tally(items, names[j]) <= Tally(items, names[k]))
    && (forall j | 0 <= j < k :: Tally(items, names[j]) < Tally(items, names[k]))
  }

  // ----- dimensions -----

  function Magnitude(x: real): real {
    if x < 0.0 then -x else x
  }

  /** The first dimension of greatest magnitude. */
  function Strongest(dims: seq<(Name, real)>): (k: nat)
    requires dims != []
    ensures k < |dims|
    ensures forall j | 0 <= j < |dims| :: Magnitude(dims[j].1) <= Magnitude(dims[k].1)
    ensures forall j | 0 <= j < k :: Magnitude(dims[j].1) < Magnitude(dims[k].1)
  {
    if |dims| == 1 then 0
    else
      var k := Strongest(dims[..|dims| - 1]);
      if Magnitude(dims[|dims| - 1].1) > Magnitude(dims[k].1) then |dims| - 1 else k
  }

  /** The dimension a candidate counts for, if it has any. */
  function Winner(c: Candidate): seq<Name> {
    if c.dims == [] then [] else [c.dims[Strongest(c.dims)].0]
  }

  function Winners(candidates: seq<Candidate>): seq<Name> {
    if candidates == [] then []
    else Winners(candidates[..|candidates| - 1]) + Winner(candidates[|candidates| - 1])
  }

  function Buckets(candidates: seq<Candidate>, boundaries: seq<real>, labels: seq<Name>): (r: seq<Name>)
    requires Fits(boundaries, labels)
    ensures |r| == |candidates|
    ensures forall name | name in r :: name in labels
  {
    if candidates == [] then []
    else
      Buckets(candidates[..|candidates| - 1], boundaries, labels)
      + [BucketOf(candidates[|candidates| - 1], boundaries, labels)]
  }

  lemma OneMoreCandidate(candidates: seq<Candidate>, i: nat, boundaries: seq<real>, labels: seq<Name>)
    requires Fits(boundaries, labels) && i < |candidates|
    ensures Winners(candidates[..i + 1]) == Winners(candidates[..i]) + Winner(candidates[i])
    ensures Buckets(candidates[..i + 1], boundaries, labels)
         == Buckets(candidates[..i], boundaries, labels) + [BucketOf(candidates[i], boundaries, labels)]
  {
    assert candidates[..i + 1][..i] == candidates[..i];
  }

  /** A missing score is zero; scores below 0 count as 0 and above 1 as 1; and the bucket is the one whose
      half-open interval holds the score. */
  lemma {:induction false} BucketsMeaning(candidates: seq<Candidate>, boundaries: seq<real>, labels: seq<Name>,
                                          i: nat, score: real, k: nat)
    requires Fits(boundaries, labels) && Ascending(boundaries) && i < |candidates| && k < |labels|
    requires candidates[i].score.None? ==> score == 0.0
    requires candidates[i].score.Some? ==>
               var x := candidates[i].score.value; score == if x < 0.0 then 0.0 else if x > 1.0 then 1.0 else x
    requires (k == 0 || score >= boundaries[k]) && (k == |labels| - 1 || score < boundaries[k + 1])
    ensures Buckets(candidates, boundaries, labels)[i] == labels[k]
    decreases |candidates|
  {
    if i < |candidates| - 1 {
      BucketsMeaning(candidates[..|candidates| - 1], boundaries, labels, i, score, k);
    } else {
      BucketExactly(score, boundaries, labels, k);
    }
  }

  /** A candidate counts for the first of its dimensions whose score is farthest from zero. */
  lemma WinnerMeaning(c: Candidate, k: nat)
    requires k < |c.dims|
    requires forall j | 0 <= j < |c.dims| ::
               var x, y := c.dims[j].1, c.dims[k].1;
               -y <= x <= y || y <= x <= -y
    requires forall j | 0 <= j < k ::
               var x, y := c.dims[j].1, c.dims[k].1;
               -y < x < y || y < x < -y
    ensures Winners([c]) == [c.dims[k].0]
  {
    var s := Strongest(c.dims);
    assert Magnitude(c.dims[k].1) <= Magnitude(c.dims[s].1);
    assert Magnitude(c.dims[s].1) <= Magnitude(c.dims[k].1);
    assert s == k;
    assert [c][..0] == [];
  }

  /** Candidate after candidate. */
  lemma {:induction false} WinnersInOrder(a: seq<Candidate>, b: seq<Candidate>)
    ensures Winners(a + b) == Winners(a) + Winners(b)
    decreases |b|
  {
    if b == [] {
      assert a + b == a;
    } else {
      assert (a + b)[..|a + b| - 1] == a + b[..|b| - 1];
      WinnersInOrder(a, b[..|b| - 1]);
    }
  }

  lemma NoWinner(c: Candidate)
    requires c.dims == []
    ensures Winners([c]) == []
  {
    assert [c][..0] == [];
  }

  // ----- the fingerprint -----

  ghost predicate SharesOf(shares: map<Name, real>, names: set<Name>, items: seq<Name>) {
    && shares.Keys == names
    && forall name {:trigger shares[name]} | name in names :: ShareAt(shares[name], items, name)
  }

  predicate ShareAt(share: real, items: seq<Name>, name: Name) {
    items != [] && share == Tally(items, name) as real / |items| as real
  }

  function EntropyTerm(f: real, log2: real -> real): real {
    if f > 0.0 then 0.0 - f * log2(f) else 0.0
  }

  ghost function EntropyTerms(shares: map<Name, real>, log2: real -> real): map<Name, real> {
    map name | name in shares :: EntropyTerm(shares[name], log2)
  }

  ghost predicate LargestIn(shares: map<Name, real>, top: real) {
    && (exists name :: name in shares && shares[name] == top)
    && (forall name | name in shares :: shares[name] <= top)
  }

  ghost predicate IsFingerprintOf(f: Fingerprint, candidates: seq<Candidate>, boundaries: seq<real>,
                                  labels: seq<Name>, log2: real -> real, round: R.Round)
    requires Fits(boundaries, labels)
  {
    var winners := Winners(candidates);
    && f.samples == |candidates|
    && SharesOf(f.scores, Elements(labels), Buckets(candidates, boundaries, labels))
    && (if winners == [] then f.dominance == map[] && f.top == None
        else
          && SharesOf(f.dominance, Elements(winners), winners)
          && exists k: nat :: MostCommonAt(Firsts(winners), winners, k) && f.top == Some(Firsts(winners)[k]))
    && f.entropy == round(S.Total(EntropyTerms(f.scores, log2)))
    && exists top :: LargestIn(f.scores, top) && f.concentration == round(top)
  }

  /** One round of the counting loop. */
  method CountOne(c: Candidate, boundaries: seq<real>, labels: seq<Name>,
                  bucketCounts: map<Name, nat>, dimensionWins: map<Name, nat>, order: seq<Name>,
                  ghost buckets: seq<Name>, ghost winners: seq<Name>)
    returns (newBuckets: map<Name, nat>, newWins: map<Name, nat>, newOrder: seq<Name>)
    requires Fits(boundaries, labels)
    requires Counts(bucketCounts, buckets) && Counts(dimensionWins, winners) && order == Firsts(winners)
    ensures Counts(newBuckets, buckets + [BucketOf(c, boundaries, labels)])
    ensures Counts(newWins, winners + Winner(c))
    ensures newOrder == Firsts(winners + Winner(c))
  {
    var bucket := BucketLabel(ScoreOf(c), boundaries, labels);
    IncrementCounts(bucketCounts, buckets, bucket);
    newBuckets, newWins, newOrder := Increment(bucketCounts, bucket), dimensionWins, order;
    if c.dims == [] {
      assert winners + Winner(c) == winners;
    } else {
      var winner := c.dims[Strongest(c.dims)].0;
      newWins, newOrder := CountItem(dimensionWins, order, winner, winners);
    }
  }

  /** The counting loop; `order` is the order in which the dimension counter was filled. */
  method CountAll(candidates: seq<Candidate>, boundaries: seq<real>, labels: seq<Name>)
    returns (bucketCounts: map<Name, nat>, dimensionWins: map<Name, nat>, order: seq<Name>)
    requires Fits(boundaries, labels)
    ensures Counts(bucketCounts, Buckets(candidates, boundaries, labels))
    ensures Counts(dimensionWins, Winners(candidates))
    ensures order == Firsts(Winners(candidates))
  {
    bucketCounts, dimensionWins, order := map[], map[], [];
    for i := 0 to |candidates|
      invariant Counts(bucketCounts, Buckets(candidates[..i], boundaries, labels))
      invariant Counts(dimensionWins, Winners(candidates[..i]))
      invariant order == Firsts(Winners(candidates[..i]))
    {
      OneMoreCandidate(candidates, i, boundaries, labels);
      bucketCounts, dimensionWins, order :=
        CountOne(candidates[i], boundaries, labels, bucketCounts, dimensionWins, order,
                 Buckets(candidates[..i], boundaries, labels), Winners(candidates[..i]));
    }
    assert candidates[..|candidates|] == candidates;
  }

  /** `compute_fingerprint` after its checks */
  method FingerprintOf(candidates: seq<Candidate>, boundaries: seq<real>, labels: seq<Name>,
                       log2: real -> real, round: R.Round)
    returns (f: Fingerprint)
    requires Fits(boundaries, labels) && candidates != []
    ensures IsFingerprintOf(f, candidates, boundaries, labels, log2, round)
  {
    var bucketCounts, dimensionWins, order := CountAll(candidates, boundaries, labels);
    ghost var winners := Winners(candidates);
    var n := |candidates|;
    var scores := map name | name in labels :: Count(bucketCounts, name) as real / n as real;
    SharesFromCounts(scores, bucketCounts, labels, Buckets(candidates, boundaries, labels));
    var dominance := Dominance(dimensionWins, order, winners);
    var entropy := EntropyOf(scores, log2);
    var top := MostCommon(dimensionWins, order, winners);
    var concentration := Largest(scores, labels);
    f := Fingerprint(n, scores, dominance, round(entropy), top, round(concentration));
  }

  lemma SharesFromCounts(shares: map<Name, real>, counts: map<Name, nat>, names: seq<Name>, items: seq<Name>)
    requires Counts(counts, items) && items != [] && shares.Keys == Elements(names)
    requires forall name | name in names :: shares[name] == Count(counts, name) as real / |items| as real
    ensures SharesOf(shares, Elements(names), items)
  {
    forall name | name in Elements(names) ensures ShareAt(shares[name], items, name) {
      assert CountAt(counts, items, name);
    }
  }

  /** `compute_fingerprint` */
  method ComputeFingerprint(candidates: seq<Candidate>, boundaries: seq<real>, labels: seq<Name>,
                            log2: real -> real, round: R.Round)
    returns (r: Result)
    ensures r == ValueError <==> |boundaries| != |labels| + 1
    ensures r == IndexError <==> |boundaries| == 1 && labels == [] && candidates != []
    ensures r.Ok? && candidates == [] ==>
              r.fingerprint == Fingerprint(0, map name | name in labels :: 0.0, map[], 0.0, None, 0.0)
    ensures r.Ok? && candidates != [] ==>
              IsFingerprintOf(r.fingerprint, candidates, boundaries, labels, log2, round)
  {
    if |boundaries| != |labels| + 1 {
      return ValueError;
    }
    if candidates == [] {
      return Ok(Fingerprint(0, map name | name in labels :: 0.0, map[], 0.0, None, 0.0));
    }
    if labels == [] {
      return IndexError;
    }
    var f := FingerprintOf(candidates, boundaries, labels, log2, round);
    r := Ok(f);
  }

  /** Each count over the total of the counts. */
  method Dominance(wins: map<Name, nat>, order: seq<Name>, ghost winners: seq<Name>) returns (r: map<Name, real>)
    requires Counts(wins, winners) && order == Firsts(winners)
    ensures if winners == [] then r == map[] else SharesOf(r, Elements(winners), winners)
  {
    var total := TotalWins(wins, order, winners);
    if total == 0 {
      total := 1;
    }
    r := map name | name in wins :: wins[name] as real / total as real;
    forall name ensures name in wins <==> name in winners {
      assert CountAt(wins, winners, name);
    }
    if winners == [] {
      assert r == map[];
    } else {
      assert r.Keys == Elements(winners);
      SharesFromCounts(r, wins, winners, winners);
    }
  }

  method TotalWins(wins: map<Name, nat>, order: seq<Name>, ghost winners: seq<Name>) returns (total: nat)
    requires Counts(wins, winners) && order == Firsts(winners)
    ensures total == |winners|
  {
    total := 0;
    TallyOfFirsts(winners);
    for i := 0 to |order|
      invariant total == TallySum(order[..i], winners)
    {
      assert order[..i + 1][..i] == order[..i];
      assert order[i] in winners && CountAt(wins, winners, order[i]);
      total := total + wins[order[i]];
    }
    assert order[..|order|] == order;
  }

  function TallySum(names: seq<Name>, items: seq<Name>): nat {
    if names == [] then 0 else TallySum(names[..|names| - 1], items) + Tally(items, names[|names| - 1])
  }

  /** The counts of the names that occur add up to the number of items. */
  lemma {:induction false} TallyOfFirsts(items: seq<Name>)
    ensures TallySum(Firsts(items), items) == |items|
  {
    if items != [] {
      var before, last := items[..|items| - 1], items[|items| - 1];
      var names := Firsts(before);
      TallyOfFirsts(before);
      FirstsDistinct(before);
      TallySumMore(names, before, last);
      assert items == before + [last];
      TallyAbsent(before, last);
      if last in before {
        assert Firsts(items) == names;
      } else {
        assert Firsts(items) == names + [last];
        assert (names + [last])[..|names|] == names;
      }
    }
  }

  lemma {:induction false} TallySumMore(names: seq<Name>, before: seq<Name>, last: Name)
    requires Distinct(names)
    ensures TallySum(names, before + [last]) == TallySum(names, before) + if last in names then 1 else 0
  {
    if names != [] {
      var init := names[..|names| - 1];
      TallySumMore(init, before, last);
      assert (before + [last])[..|before|] == before;
      assert names == init + [names[|names| - 1]];
    }
  }

  /** The entry `most_common` puts first. */
  method MostCommon(wins: map<Name, nat>, order: seq<Name>, ghost winners: seq<Name>) returns (r: Option<Name>)
    requires Counts(wins, winners) && order == Firsts(winners)
    ensures if winners == [] then r == None
            else exists k: nat :: MostCommonAt(order, winners, k) && r == Some(order[k])
  {
    if order == [] {
      return None;
    }
    var best := 0;
    forall j | 0 <= j < |order|
      ensures order[j] in wins && wins[order[j]] == Tally(winners, order[j])
    {
      assert order[j] in winners && CountAt(wins, winners, order[j]);
    }
    for i := 1 to |order|
      invariant best < i
      invariant forall j | 0 <= j < i :: Tally(winners, order[j]) <= Tally(winners, order[best])
      invariant forall j | 0 <= j < best :: Tally(winners, order[j]) < Tally(winners, order[best])
    {
      if wins[order[i]] > wins[order[best]] {
        best := i;
      }
    }
    assert order[0] in winners;
    assert MostCommonAt(order, winners, best);
    r := Some(order[best]);
  }

  /** The loop over the frequencies, in whatever order the dictionary has. */
  method EntropyOf(shares: map<Name, real>, log2: real -> real) returns (entropy: real)
    ensures entropy == S.Total(EntropyTerms(shares, log2))
  {
    entropy := 0.0;
    var left := shares.Keys;
    ghost var terms := EntropyTerms(shares, log2);
    ghost var rest := terms;
    while left != {}
      invariant left == rest.Keys && left <= shares.Keys
      invariant forall name {:trigger rest[name]} | name in rest :: rest[name] == terms[name]
      invariant entropy + S.Total(rest) == S.Total(terms)
      decreases |left|
    {
      var name :| name in left;
      S.TotalWithout(rest, name);
      rest := rest - {name};
      var term := EntropyTerm(shares[name], log2);
      entropy := entropy + term;
      left := left - {name};
    }
  }

  method Largest(shares: map<Name, real>, labels: seq<Name>) returns (top: real)
    requires labels != [] && shares.Keys == Elements(labels)
    ensures LargestIn(shares, top)
  {
    top := shares[labels[0]];
    for i := 1 to |labels|
      invariant exists name :: name in shares && shares[name] == top
      invariant forall j | 0 <= j < i :: shares[labels[j]] <= top
    {
      if shares[labels[i]] > top {
        top := shares[labels[i]];
      }
    }
  }

  // ----- what a fingerprint says -----

  ghost function Shares(names: set<Name>, items: seq<Name>, n: real): map<Name, real>
    requires n != 0.0
  {
    map name | name in names :: Tally(items, name) as real / n
  }

  lemma {:induction false} SharesSum(names: set<Name>, items: seq<Name>, n: real)
    requires n != 0.0 && forall i | 0 <= i < |items| :: items[i] in names
    ensures S.Total(Shares(names, items, n)) == |items| as real / n
  {
    var shares := Shares(names, items, n);
    if items == [] {
      S.TotalNonNegative(shares);
    } else {
      var before, last := items[..|items| - 1], items[|items| - 1];
      SharesSum(names, before, n);
      AddQuotients(Tally(before, last) as real, 1.0, n);
      AddQuotients(|before| as real, 1.0, n);
      assert shares == Shares(names, before, n)[last := Tally(items, last) as real / n];
      S.TotalReplace(Shares(names, before, n), last, Tally(items, last) as real / n);
    }
  }

  lemma SharesAreShares(shares: map<Name, real>, names: set<Name>, items: seq<Name>)
    requires SharesOf(shares, names, items) && items != []
    ensures shares == Shares(names, items, |items| as real)
    ensures S.NonNegative(shares)
  {
    forall name | name in names
      ensures shares[name] == Shares(names, items, |items| as real)[name] && shares[name] >= 0.0
    {
      assert ShareAt(shares[name], items, name);
    }
  }

  /** Shares lie in [0, 1] and add up to 1. */
  lemma SharesAreDistribution(shares: map<Name, real>, names: set<Name>, items: seq<Name>)
    requires SharesOf(shares, names, items) && items != [] && forall i | 0 <= i < |items| :: items[i] in names
    ensures S.NonNegative(shares) && S.Total(shares) == 1.0
    ensures forall name | name in shares :: shares[name] <= 1.0
  {
    var n := |items| as real;
    SharesAreShares(shares, names, items);
    SharesSum(names, items, n);
    QuotientOfProduct(n, 1.0, n);
    forall name | name in shares ensures shares[name] <= 1.0 {
      S.ValueBelowTotal(shares, name);
    }
  }

  /** The largest value of a distribution is at least an even share. */
  lemma LargestIsEvenShare(shares: map<Name, real>, top: real)
    requires S.Total(shares) == 1.0 && LargestIn(shares, top)
    ensures |shares| > 0 && 1.0 / |shares| as real <= top
  {
    S.TotalAtMost(shares, top);
    S.RepeatedIsProduct(|shares|, top);
    var name :| name in shares && shares[name] == top;
    assert |shares| > 0;
    DivideOrder(1.0, |shares| as real, top);
  }

  /** The score distribution of a non-empty batch sums to 1 and its largest bucket holds at least an even
      share; so does the dominance, unless no candidate had dimension scores. */
  lemma FingerprintIsDistribution(f: Fingerprint, candidates: seq<Candidate>, boundaries: seq<real>,
                                  labels: seq<Name>, log2: real -> real, round: R.Round)
    requires Fits(boundaries, labels) && candidates != [] && R.RoundsToSix(round)
    requires IsFingerprintOf(f, candidates, boundaries, labels, log2, round)
    ensures S.NonNegative(f.scores) && S.Total(f.scores) == 1.0
    ensures f.dominance == map[] <==> forall c | c in candidates :: c.dims == []
    ensures f.dominance != map[] ==> S.NonNegative(f.dominance) && S.Total(f.dominance) == 1.0
    ensures 1.0 / |Elements(labels)| as real - R.HALF_UNIT <= f.concentration <= 1.0
  {
    var buckets, winners := Buckets(candidates, boundaries, labels), Winners(candidates);
    forall i | 0 <= i < |buckets| ensures buckets[i] in Elements(labels) {
      assert buckets[i] in buckets;
    }
    SharesAreDistribution(f.scores, Elements(labels), buckets);
    WinnersEmpty(candidates);
    if winners != [] {
      SharesAreDistribution(f.dominance, Elements(winners), winners);
      assert winners[0] in f.dominance;
    }
    var top :| LargestIn(f.scores, top) && f.concentration == round(top);
    LargestIsEvenShare(f.scores, top);
    assert |f.scores| == |f.scores.Keys|;
    var name :| name in f.scores && f.scores[name] == top;
    R.RoundKeepsUnit(round, top);
  }

  lemma {:induction false} WinnersEmpty(candidates: seq<Candidate>)
    ensures Winners(candidates) == [] <==> forall c | c in candidates :: c.dims == []
  {
    if candidates != [] {
      var before, last := candidates[..|candidates| - 1], candidates[|candidates| - 1];
      WinnersEmpty(before);
      assert candidates == before + [last];
    }
  }

  predicate LogAt(log2: real -> real, x: real) {
    (0.0 < x < 1.0 ==> log2(x) < 0.0) && (x == 1.0 ==> log2(x) == 0.0)
  }

  /** Entropy is never negative, and before rounding it is zero exactly when one bucket holds everything. */
  lemma EntropyZeroExactly(shares: map<Name, real>, log2: real -> real)
    requires S.NonNegative(shares) && S.Total(shares) == 1.0
    requires forall x {:trigger log2(x)} :: LogAt(log2, x)
    ensures S.Total(EntropyTerms(shares, log2)) >= 0.0
    ensures S.Total(EntropyTerms(shares, log2)) == 0.0 <==> exists name :: name in shares && shares[name] == 1.0
  {
    var terms := EntropyTerms(shares, log2);
    forall name | name in shares
      ensures terms[name] >= 0.0 && (terms[name] == 0.0 <==> shares[name] == 0.0 || shares[name] == 1.0)
    {
      S.ValueBelowTotal(shares, name);
      assert LogAt(log2, shares[name]);
    }
    S.TotalNonNegative(terms);
    S.TotalNonNegative(shares);
    if S.Total(terms) == 0.0 {
      var name :| name in shares && shares[name] != 0.0;
      assert terms[name] == 0.0;
    }
    if name :| name in shares && shares[name] == 1.0 {
      S.TotalWithout(shares, name);
      S.TotalNonNegative(shares - {name});
      forall other | other in terms ensures terms[other] == 0.0 {
        if other != name {
          assert (shares - {name})[other] == 0.0;
        }
      }
    }
  }

  /** The entropy of `n` even shares is minus the logarithm of one. */
  lemma EntropyOfEvenShares(shares: map<Name, real>, log2: real -> real, share: real)
    requires shares != map[] && (forall name | name in shares :: shares[name] == share)
    requires IsShare(share, 1.0, |shares| as real)
    ensures S.Total(EntropyTerms(shares, log2)) == -log2(share)
  {
    var terms := EntropyTerms(shares, log2);
    assert terms.Keys == shares.Keys;
    assert |terms| == |terms.Keys| == |shares.Keys| == |shares|;
    PositiveShare(share, |shares| as real);
    S.TotalConstant(terms, 0.0 - share * log2(share));
    S.RepeatedIsProduct(|shares|, 0.0 - share * log2(share));
    EvenProduct(|shares| as real, share, log2(share));
  }

  lemma PositiveShare(share: real, n: real)
    requires n >= 0.0 && IsShare(share, 1.0, n)
    ensures share > 0.0
  {
    if share < 0.0 && n > 0.0 {
      PositiveProduct(-share, n, -share * n);
    }
  }

  lemma EvenProduct(n: real, share: real, log: real)
    requires IsShare(share, 1.0, n)
    ensures n * (0.0 - share * log) == -log
  {
    assert n * (share * log) == (share * n) * log;
  }
}
