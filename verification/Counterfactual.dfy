/** `_diff_fingerprints`: what the winning matches had and the losing one had not.
    Dimensions the loser lacks come first, best supported first; then weights the winners set higher.
    Both loops stop as soon as there are enough scenarios.
    The specification lists every scenario and cuts the list. */
module Counterfactual {

  import opened Options
  import opened Counting
  import opened RealArithmetic
  import opened Rounding
  import opened Sequences

  /** A weight is None when it is not a number. */
  datatype Match = Match(dims: seq<Name>, weights: map<Name, Option<real>>)

  datatype Scenario = AddDimension(dim: Name, confidence: real) | ChangeWeight(dim: Name, confidence: real)

  /** All dimensions of the winning matches, one match after the other. */
  function AllDims(positives: seq<Match>): seq<Name> {
    if positives == [] then [] else AllDims(positives[..|positives| - 1]) + positives[|positives| - 1].dims
  }

  lemma {:induction false} AllDimsInOrder(a: seq<Match>, b: seq<Match>)
    ensures AllDims(a + b) == AllDims(a) + AllDims(b)
    decreases |b|
  {
    if b == [] {
      assert a + b == a;
    } else {
      assert (a + b)[..|a + b| - 1] == a + b[..|b| - 1];
      AllDimsInOrder(a, b[..|b| - 1]);
    }
  }

  lemma DimsOfOne(p: Match)
    ensures AllDims([p]) == p.dims
  {
    assert [p][..0] == [];
  }

  /** The confidence is the number of times the dimension is listed, over the number of winners. */
  lemma ConfidenceMeaning(items: seq<Name>, dim: Name, n: nat)
    requires n > 0
    ensures IsShare(Confidence(items, dim, n), multiset(items)[dim] as real, n as real)
  {
    TallyIsMultiplicity(items, dim);
    ShareOf(Tally(items, dim) as real, n as real);
  }

  function Confidence(items: seq<Name>, dim: Name, n: nat): real
    requires n > 0
  {
    Tally(items, dim) as real / n as real
  }

  function Missing(names: seq<Name>, actual: set<Name>): seq<Name> {
    if names == [] then []
    else
      var last := names[|names| - 1];
      Missing(names[..|names| - 1], actual) + if last in actual then [] else [last]
  }

  // ----- a stable sort by count, largest first -----

  function Insert(s: seq<Name>, x: Name, items: seq<Name>): seq<Name> {
    if s == [] || Tally(items, s[|s| - 1]) >= Tally(items, x) then s + [x]
    else Insert(s[..|s| - 1], x, items) + [s[|s| - 1]]
  }

  function SortByCount(names: seq<Name>, items: seq<Name>): seq<Name> {
    if names == [] then []
    else Insert(SortByCount(names[..|names| - 1], items), names[|names| - 1], items)
  }

  predicate Descending(s: seq<Name>, items: seq<Name>) {
    forall i, j | 0 <= i < j < |s| :: Tally(items, s[i]) >= Tally(items, s[j])
  }

  /** The names with a given count, in order. */
  function WithCount(s: seq<Name>, items: seq<Name>, count: nat): seq<Name> {
    if s == [] then []
    else
      WithCount(s[..|s| - 1], items, count) + if Tally(items, s[|s| - 1]) == count then [s[|s| - 1]] else []
  }

  lemma {:induction false} WithCountMeaning(s: seq<Name>, t: seq<Name>, items: seq<Name>, count: nat, x: Name)
    ensures WithCount(s + t, items, count) == WithCount(s, items, count) + WithCount(t, items, count)
    ensures WithCount([x], items, count) == if multiset(items)[x] == count then [x] else []
    decreases |t|
  {
    TallyIsMultiplicity(items, x);
    assert [x][..0] == [];
    if t == [] {
      assert s + t == s;
    } else {
      assert (s + t)[..|s + t| - 1] == s + t[..|t| - 1];
      WithCountMeaning(s, t[..|t| - 1], items, count, x);
    }
  }

  lemma {:induction false} InsertPermutes(s: seq<Name>, x: Name, items: seq<Name>)
    ensures multiset(Insert(s, x, items)) == multiset(s) + multiset{x}
  {
    if s != [] {
      var init, last := s[..|s| - 1], s[|s| - 1];
      InsertPermutes(init, x, items);
      assert s == init + [last];
    }
  }

  lemma {:induction false} InsertSorts(s: seq<Name>, x: Name, items: seq<Name>)
    requires Descending(s, items)
    ensures Descending(Insert(s, x, items), items)
  {
    if s != [] && Tally(items, s[|s| - 1]) < Tally(items, x) {
      var init, last := s[..|s| - 1], s[|s| - 1];
      InsertSorts(init, x, items);
      var r := Insert(init, x, items);
      InsertPermutes(init, x, items);
      forall i | 0 <= i < |r| ensures Tally(items, r[i]) >= Tally(items, last) {
        assert r[i] in multiset(r);
        assert r[i] == x || r[i] in init;
      }
    }
  }

  lemma {:induction false} InsertKeepsOrder(s: seq<Name>, x: Name, items: seq<Name>, count: nat)
    ensures WithCount(Insert(s, x, items), items, count)
         == WithCount(s, items, count) + if Tally(items, x) == count then [x] else []
  {
    if s == [] || Tally(items, s[|s| - 1]) >= Tally(items, x) {
      assert (s + [x])[..|s|] == s;
    } else {
      var init, last := s[..|s| - 1], s[|s| - 1];
      InsertKeepsOrder(init, x, items, count);
      var r := Insert(init, x, items);
      assert (r + [last])[..|r|] == r;
    }
  }

  lemma {:induction false} SortPermutes(names: seq<Name>, items: seq<Name>)
    ensures multiset(SortByCount(names, items)) == multiset(names)
  {
    if names != [] {
      var init, last := names[..|names| - 1], names[|names| - 1];
      SortPermutes(init, items);
      InsertPermutes(SortByCount(init, items), last, items);
      assert names == init + [last];
    }
  }

  lemma {:induction false} SortDescends(names: seq<Name>, items: seq<Name>)
    ensures Descending(SortByCount(names, items), items)
  {
    if names != [] {
      var init, last := names[..|names| - 1], names[|names| - 1];
      SortDescends(init, items);
      InsertSorts(SortByCount(init, items), last, items);
    }
  }

  lemma {:induction false} SortIsStable(names: seq<Name>, items: seq<Name>, count: nat)
    ensures WithCount(SortByCount(names, items), items, count) == WithCount(names, items, count)
  {
    if names != [] {
      var init, last := names[..|names| - 1], names[|names| - 1];
      SortIsStable(init, items, count);
      InsertKeepsOrder(SortByCount(init, items), last, items, count);
    }
  }

  /** The result is a permutation in non-increasing order of count, and names of equal count keep their order. */
  lemma SortMeaning(names: seq<Name>, items: seq<Name>, count: nat)
    ensures Descending(SortByCount(names, items), items)
    ensures multiset(SortByCount(names, items)) == multiset(names)
    ensures WithCount(SortByCount(names, items), items, count) == WithCount(names, items, count)
  {
    SortDescends(names, items);
    SortPermutes(names, items);
    SortIsStable(names, items, count);
  }

  // ----- scenarios -----

  /** The scenarios for the names that reach the minimum. */
  function Additions(names: seq<Name>, items: seq<Name>, n: nat, minimum: real, round: Round): seq<Scenario>
    requires n > 0
  {
    if names == [] then []
    else
      var last := names[|names| - 1];
      var c := Confidence(items, last, n);
      Additions(names[..|names| - 1], items, n, minimum, round)
      + if c < minimum then [] else [AddDimension(last, round(c))]
  }

  /** A winner gives the dimension more than one and a half times the weight the loser gave it. */
  predicate Outweighs(p: Match, loser: map<Name, Option<real>>, dim: Name) {
    && dim in p.weights && dim in loser && p.weights[dim].Some? && loser[dim].Some?
    && p.weights[dim].value > loser[dim].value * 1.5
  }

  function ChangesOf(p: Match, loser: map<Name, Option<real>>, order: seq<Name>,
                     items: seq<Name>, n: nat, minimum: real, round: Round): seq<Scenario>
    requires n > 0
  {
    if order == [] then []
    else
      var dim := order[|order| - 1];
      var c := Confidence(items, dim, n);
      ChangesOf(p, loser, order[..|order| - 1], items, n, minimum, round)
      + if Outweighs(p, loser, dim) && c >= minimum then [ChangeWeight(dim, round(c))] else []
  }

  function Changes(positives: seq<Match>, loser: map<Name, Option<real>>, order: seq<Name>,
                   items: seq<Name>, n: nat, minimum: real, round: Round): seq<Scenario>
    requires n > 0
  {
    if positives == [] then []
    else
      Changes(positives[..|positives| - 1], loser, order, items, n, minimum, round)
      + ChangesOf(positives[|positives| - 1], loser, order, items, n, minimum, round)
  }

  function Cut(s: seq<Scenario>, limit: int): seq<Scenario> {
    if limit <= 0 then [] else if |s| <= limit then s else s[..limit]
  }

  function Candidates(actual: Match, positives: seq<Match>): seq<Name> {
    var items := AllDims(positives);
    SortByCount(Missing(Firsts(items), Elements(actual.dims)), items)
  }

  /** Every scenario there is room for, additions first. */
  function Scenarios(actual: Match, positives: seq<Match>, order: seq<Name>, limit: int, minimum: real,
                     round: Round): seq<Scenario> {
    if positives == [] then []
    else
      var items, n := AllDims(positives), |positives|;
      Cut(Additions(Candidates(actual, positives), items, n, minimum, round)
          + Changes(positives, actual.weights, order, items, n, minimum, round), limit)
  }

  method CountDims(positives: seq<Match>) returns (counts: map<Name, nat>, first: seq<Name>)
    ensures Counts(counts, AllDims(positives)) && first == Firsts(AllDims(positives))
  {
    counts, first := map[], [];
    for i := 0 to |positives|
      invariant Counts(counts, AllDims(positives[..i])) && first == Firsts(AllDims(positives[..i]))
    {
      assert positives[..i + 1][..i] == positives[..i];
      counts, first := CountDimsOf(positives[i].dims, counts, first, AllDims(positives[..i]));
    }
    assert positives[..|positives|] == positives;
  }

  method CountDimsOf(dims: seq<Name>, oldCounts: map<Name, nat>, oldFirst: seq<Name>, ghost before: seq<Name>)
    returns (counts: map<Name, nat>, first: seq<Name>)
    requires Counts(oldCounts, before) && oldFirst == Firsts(before)
    ensures Counts(counts, before + dims) && first == Firsts(before + dims)
  {
    counts, first := oldCounts, oldFirst;
    assert before + dims[..0] == before;
    for j := 0 to |dims|
      invariant Counts(counts, before + dims[..j]) && first == Firsts(before + dims[..j])
    {
      assert before + dims[..j + 1] == before + dims[..j] + [dims[j]];
      counts, first := CountItem(counts, first, dims[j], before + dims[..j]);
    }
    assert dims[..|dims|] == dims;
  }

  /** The loop over the missing dimensions: it stops as soon as there are enough scenarios. */
  method AddScenarios(names: seq<Name>, counts: map<Name, nat>, ghost items: seq<Name>, n: nat,
                      limit: int, minimum: real, round: Round)
    returns (scenarios: seq<Scenario>)
    requires n > 0 && Counts(counts, items)
    ensures scenarios <= Additions(names, items, n, minimum, round)
    ensures |scenarios| < limit ==> scenarios == Additions(names, items, n, minimum, round)
    ensures limit > 0 ==> |scenarios| <= limit
    ensures limit <= 0 ==> |scenarios| <= 1
  {
    scenarios := [];
    for i := 0 to |names|
      invariant scenarios == Additions(names[..i], items, n, minimum, round)
      invariant scenarios == [] || |scenarios| < limit
    {
      assert names[..i + 1][..i] == names[..i];
      assert CountAt(counts, items, names[i]);
      var confidence := Count(counts, names[i]) as real / n as real;
      if confidence < minimum {
        continue;
      }
      scenarios := scenarios + [AddDimension(names[i], round(confidence))];
      if |scenarios| >= limit {
        AdditionsGrow(names, i + 1, items, n, minimum, round);
        return;
      }
    }
    assert names[..|names|] == names;
  }

  lemma {:induction false} AdditionsGrow(names: seq<Name>, i: nat, items: seq<Name>, n: nat, minimum: real,
                                         round: Round)
    requires n > 0 && i <= |names|
    ensures Additions(names[..i], items, n, minimum, round) <= Additions(names, items, n, minimum, round)
    decreases |names|
  {
    if i < |names| {
      AdditionsGrow(names[..|names| - 1], i, items, n, minimum, round);
      assert names[..|names| - 1][..i] == names[..i];
    } else {
      assert names[..i] == names;
    }
  }

  lemma {:induction false} ChangesGrow(positives: seq<Match>, i: nat, loser: map<Name, Option<real>>, order: seq<Name>,
                                       items: seq<Name>, n: nat, minimum: real, round: Round)
    requires n > 0 && i <= |positives|
    ensures Changes(positives[..i], loser, order, items, n, minimum, round)
         <= Changes(positives, loser, order, items, n, minimum, round)
    decreases |positives|
  {
    if i < |positives| {
      ChangesGrow(positives[..|positives| - 1], i, loser, order, items, n, minimum, round);
      assert positives[..|positives| - 1][..i] == positives[..i];
    } else {
      assert positives[..i] == positives;
    }
  }

  lemma {:induction false} ChangesOfGrow(p: Match, loser: map<Name, Option<real>>, order: seq<Name>, j: nat,
                                         items: seq<Name>, n: nat, minimum: real, round: Round)
    requires n > 0 && j <= |order|
    ensures ChangesOf(p, loser, order[..j], items, n, minimum, round)
         <= ChangesOf(p, loser, order, items, n, minimum, round)
    decreases |order|
  {
    if j < |order| {
      ChangesOfGrow(p, loser, order[..|order| - 1], j, items, n, minimum, round);
      assert order[..|order| - 1][..j] == order[..j];
    } else {
      assert order[..j] == order;
    }
  }

  /** The loop over the shared dimensions of one winner, `room` scenarios being left. */
  method ChangeScenariosOf(p: Match, loser: map<Name, Option<real>>, order: seq<Name>, counts: map<Name, nat>,
                           ghost items: seq<Name>, n: nat, room: nat, minimum: real, round: Round)
    returns (scenarios: seq<Scenario>)
    requires n > 0 && room > 0 && Counts(counts, items)
    ensures scenarios == Cut(ChangesOf(p, loser, order, items, n, minimum, round), room)
  {
    scenarios := [];
    for j := 0 to |order|
      invariant scenarios == ChangesOf(p, loser, order[..j], items, n, minimum, round)
      invariant |scenarios| < room
    {
      var dim := order[j];
      assert order[..j + 1][..j] == order[..j];
      assert CountAt(counts, items, dim);
      if dim in p.weights && dim in loser {
        if p.weights[dim].Some? && loser[dim].Some? {
          if p.weights[dim].value > loser[dim].value * 1.5 {
            var confidence := Count(counts, dim) as real / n as real;
            if confidence >= minimum {
              scenarios := scenarios + [ChangeWeight(dim, round(confidence))];
            }
          }
        }
      }
      if |scenarios| >= room {
        ChangesOfGrow(p, loser, order, j + 1, items, n, minimum, round);
        return;
      }
    }
    assert order[..|order|] == order;
  }

  /** What one winner adds to what the ones before it gave. */
  lemma OneWinnerMore(positives: seq<Match>, i: nat, loser: map<Name, Option<real>>, order: seq<Name>,
                      items: seq<Name>, n: nat, room: nat, minimum: real, round: Round)
    requires n > 0 && i < |positives|
    requires |Changes(positives[..i], loser, order, items, n, minimum, round)| < room
    ensures var before := Changes(positives[..i], loser, order, items, n, minimum, round);
            var more := ChangesOf(positives[i], loser, order, items, n, minimum, round);
            var found := before + Cut(more, room - |before|);
            if |found| < room then found == Changes(positives[..i + 1], loser, order, items, n, minimum, round)
            else found == Cut(Changes(positives, loser, order, items, n, minimum, round), room)
  {
    var before := Changes(positives[..i], loser, order, items, n, minimum, round);
    var more := ChangesOf(positives[i], loser, order, items, n, minimum, round);
    assert positives[..i + 1][..i] == positives[..i];
    assert Changes(positives[..i + 1], loser, order, items, n, minimum, round) == before + more;
    ChangesGrow(positives, i + 1, loser, order, items, n, minimum, round);
    CutPrefix(before, more, Changes(positives, loser, order, items, n, minimum, round), room);
  }

  lemma CutPrefix(a: seq<Scenario>, b: seq<Scenario>, all: seq<Scenario>, room: nat)
    requires |a| < room && a + b <= all
    ensures var found := a + Cut(b, room - |a|);
            if |found| < room then found == a + b else found == Cut(all, room)
  {
  }

  method ChangeScenarios(positives: seq<Match>, loser: map<Name, Option<real>>, order: seq<Name>,
                         counts: map<Name, nat>,
                         ghost items: seq<Name>, n: nat, room: nat, minimum: real, round: Round)
    returns (scenarios: seq<Scenario>)
    requires n > 0 && room > 0 && Counts(counts, items)
    ensures scenarios == Cut(Changes(positives, loser, order, items, n, minimum, round), room)
  {
    scenarios := [];
    for i := 0 to |positives|
      invariant scenarios == Changes(positives[..i], loser, order, items, n, minimum, round)
      invariant |scenarios| < room
    {
      OneWinnerMore(positives, i, loser, order, items, n, room, minimum, round);
      var more := ChangeScenariosOf(positives[i], loser, order, counts, items, n, room - |scenarios|, minimum, round);
      scenarios := scenarios + more;
      if |scenarios| >= room {
        return;
      }
    }
    assert positives[..|positives|] == positives;
  }

  /** `_diff_fingerprints`; `order` is the order in which the set of the loser's dimensions is visited. */
  method DiffFingerprints(actual: Match, positives: seq<Match>, order: seq<Name>, limit: int, minimum: real,
                          round: Round)
    returns (scenarios: seq<Scenario>)
    ensures scenarios == Scenarios(actual, positives, order, limit, minimum, round)
    ensures limit <= 0 || positives == [] ==> scenarios == []
    ensures limit > 0 ==> |scenarios| <= limit
  {
    if |positives| == 0 {
      return [];
    }
    var n := |positives|;
    var counts, first := CountDims(positives);
    var items := AllDims(positives);
    var sorted := SortByCount(Missing(first, Elements(actual.dims)), items);
    scenarios := AddScenarios(sorted, counts, items, n, limit, minimum, round);
    ghost var added := scenarios;
    if |scenarios| < limit {
      var changes := ChangeScenarios(positives, actual.weights, order, counts, items, n, limit - |scenarios|,
                                     minimum, round);
      scenarios := scenarios + changes;
    }
    CutInParts(added, scenarios, Additions(sorted, items, n, minimum, round),
               Changes(positives, actual.weights, order, items, n, minimum, round), limit);
    scenarios := Take(scenarios, limit);
  }

  lemma CutInParts(added: seq<Scenario>, found: seq<Scenario>, additions: seq<Scenario>, changes: seq<Scenario>,
                   limit: int)
    requires added <= additions && (|added| < limit ==> added == additions)
    requires limit > 0 ==> |added| <= limit
    requires limit <= 0 ==> |added| <= 1
    requires found == if |added| < limit then added + Cut(changes, limit - |added|) else added
    ensures Take(found, limit) == Cut(additions + changes, limit)
  {
  }

  // ----- what the scenarios are -----

  lemma {:induction false} MissingMeaning(names: seq<Name>, actual: set<Name>)
    requires Distinct(names)
    ensures Distinct(Missing(names, actual))
    ensures forall name :: name in Missing(names, actual) <==> name in names && name !in actual
  {
    if names != [] {
      var init := names[..|names| - 1];
      MissingMeaning(init, actual);
      assert names == init + [names[|names| - 1]];
    }
  }

  lemma DistinctPermutation(a: seq<Name>, b: seq<Name>)
    requires multiset(a) == multiset(b) && Distinct(a)
    ensures Distinct(b)
  {
    DistinctCounts(a);
    DistinctCounts(b);
  }

  /** The candidates are the dimensions some winner has and the loser has not, each once, by falling support. */
  lemma CandidatesMeaning(actual: Match, positives: seq<Match>)
    ensures var names, items := Candidates(actual, positives), AllDims(positives);
            && Distinct(names)
            && Descending(names, items)
            && forall dim :: dim in names <==> dim in items && dim !in actual.dims
  {
    var items, lost := AllDims(positives), Elements(actual.dims);
    var missing := Missing(Firsts(items), lost);
    FirstsDistinct(items);
    MissingMeaning(Firsts(items), lost);
    SortMeaning(missing, items, 0);
    DistinctPermutation(missing, SortByCount(missing, items));
    forall dim ensures dim in SortByCount(missing, items) <==> dim in missing {
      assert dim in SortByCount(missing, items) <==> dim in multiset(SortByCount(missing, items));
      assert dim in missing <==> dim in multiset(missing);
    }
  }

  lemma {:induction false} AdditionsMeaning(names: seq<Name>, items: seq<Name>, n: nat, minimum: real, round: Round)
    requires n > 0 && Distinct(names) && Descending(names, items)
    ensures var all := Additions(names, items, n, minimum, round);
            && |all| <= |names|
            && (forall k | 0 <= k < |all| :: all[k] == AddDimension(names[k], round(Confidence(items, names[k], n))))
            && (forall k | 0 <= k < |names| :: k < |all| <==> Confidence(items, names[k], n) >= minimum)
  {
    if names != [] {
      var init, last := names[..|names| - 1], names[|names| - 1];
      AdditionsMeaning(init, items, n, minimum, round);
      forall k | 0 <= k < |init|
        ensures Confidence(items, init[k], n) >= Confidence(items, last, n)
      {
        OrderedQuotients(Tally(items, last) as real, Tally(items, names[k]) as real, n as real);
      }
    }
  }

  /** With a positive limit, the first scenarios are additions for the best supported missing dimensions
      that reach the minimum: as many as there are, or as the limit allows. */
  lemma TopAdditionsExactly(actual: Match, positives: seq<Match>, order: seq<Name>, limit: int, minimum: real,
                            round: Round)
    requires positives != [] && limit > 0
    ensures var r := Scenarios(actual, positives, order, limit, minimum, round);
            var names, items, n := Candidates(actual, positives), AllDims(positives), |positives|;
            && |r| <= limit
            && (forall k | 0 <= k < |r| && k < |names| :: r[k].AddDimension? ==>
                  r[k] == AddDimension(names[k], round(Confidence(items, names[k], n))))
            && (forall k | 0 <= k < |names| ::
                  k < |r| && r[k].AddDimension? <==> k < limit && Confidence(items, names[k], n) >= minimum)
            && (forall k | 0 <= k < |r| :: r[k].AddDimension? ==> k < |names|)
  {
    var names, items, n := Candidates(actual, positives), AllDims(positives), |positives|;
    var added := Additions(names, items, n, minimum, round);
    var changed := Changes(positives, actual.weights, order, items, n, minimum, round);
    CandidatesMeaning(actual, positives);
    AdditionsMeaning(names, items, n, minimum, round);
    ChangesKind(positives, actual.weights, order, items, n, minimum, round);
    CutKinds(added, changed, limit);
    assert Scenarios(actual, positives, order, limit, minimum, round) == Cut(added + changed, limit);
  }

  /** In what is left of additions and changes, the additions come first. */
  lemma CutKinds(added: seq<Scenario>, changed: seq<Scenario>, limit: int)
    requires limit > 0 && (forall s | s in added :: s.AddDimension?) && (forall s | s in changed :: s.ChangeWeight?)
    ensures var r := Cut(added + changed, limit);
            && |r| <= limit
            && (forall k | 0 <= k < |r| :: r[k].AddDimension? <==> k < |added|)
            && (forall k | 0 <= k < |r| && k < |added| :: r[k] == added[k])
            && (|r| == limit || |added| <= |r|)
  {
    var all := added + changed;
    forall k | 0 <= k < |all| ensures all[k].AddDimension? <==> k < |added| {
      assert if k < |added| then all[k] in added else all[k] in changed;
    }
  }

  lemma {:induction false} ChangesKind(positives: seq<Match>, loser: map<Name, Option<real>>, order: seq<Name>,
                                       items: seq<Name>, n: nat, minimum: real, round: Round)
    requires n > 0
    ensures var all := Changes(positives, loser, order, items, n, minimum, round);
            forall s | s in all ::
              && s.ChangeWeight?
              && s.confidence == round(Confidence(items, s.dim, n)) && Confidence(items, s.dim, n) >= minimum
              && s.dim in order && exists p :: p in positives && Outweighs(p, loser, s.dim)
  {
    if positives != [] {
      var init, last := positives[..|positives| - 1], positives[|positives| - 1];
      ChangesKind(init, loser, order, items, n, minimum, round);
      ChangesOfKind(last, loser, order, items, n, minimum, round);
      assert positives == init + [last];
      assert last in positives;
    }
  }

  /** The winners that give the dimension more than one and a half times the loser's weight, both being
      numbers. */
  ghost function Outweighers(positives: seq<Match>, loser: map<Name, Option<real>>, dim: Name): set<int> {
    set i | 0 <= i < |positives| && dim in positives[i].weights && dim in loser
            && positives[i].weights[dim].Some? && loser[dim].Some?
            && 2.0 * positives[i].weights[dim].value > 3.0 * loser[dim].value
  }

  lemma OutweighersOneMore(positives: seq<Match>, loser: map<Name, Option<real>>, dim: Name)
    requires positives != []
    ensures |Outweighers(positives, loser, dim)|
         == |Outweighers(positives[..|positives| - 1], loser, dim)|
            + if Outweighs(positives[|positives| - 1], loser, dim) then 1 else 0
  {
    var last := |positives| - 1;
    assert Outweighers(positives, loser, dim)
        == Outweighers(positives[..last], loser, dim) + if Outweighs(positives[last], loser, dim) then {last} else {};
  }

  lemma {:induction false} ChangesOfCount(p: Match, loser: map<Name, Option<real>>, order: seq<Name>,
                                          items: seq<Name>, n: nat, minimum: real, round: Round, dim: Name)
    requires n > 0 && Distinct(order)
    ensures var all, c := ChangesOf(p, loser, order, items, n, minimum, round), Confidence(items, dim, n);
            multiset(all)[ChangeWeight(dim, round(c))] ==
              if dim in order && Outweighs(p, loser, dim) && c >= minimum then 1 else 0
  {
    if order != [] {
      var init, last := order[..|order| - 1], order[|order| - 1];
      ChangesOfCount(p, loser, init, items, n, minimum, round, dim);
      assert dim in order <==> dim in init || dim == last by {
        assert order == init + [last];
      }
      assert last !in init;
    }
  }

  /** Which weight scenarios there are, and how often: one for every winner that outweighs the loser on a
      dimension of the loser, when that dimension reaches the minimum. */
  lemma {:induction false} ChangesExactly(positives: seq<Match>, loser: map<Name, Option<real>>, order: seq<Name>,
                                          items: seq<Name>, n: nat, minimum: real, round: Round, dim: Name)
    requires n > 0 && Distinct(order)
    ensures var all, c := Changes(positives, loser, order, items, n, minimum, round), Confidence(items, dim, n);
            multiset(all)[ChangeWeight(dim, round(c))] ==
              if dim in order && c >= minimum then |Outweighers(positives, loser, dim)| else 0
  {
    if positives == [] {
      assert Outweighers(positives, loser, dim) == {};
    } else {
      OutweighersOneMore(positives, loser, dim);
      ChangesExactly(positives[..|positives| - 1], loser, order, items, n, minimum, round, dim);
      ChangesOfCount(positives[|positives| - 1], loser, order, items, n, minimum, round, dim);
    }
  }

  /** The weight scenarios go winner by winner, and for each winner in the order of the loser's dimensions. */
  lemma {:induction false} ChangesInOrder(a: seq<Match>, b: seq<Match>, loser: map<Name, Option<real>>,
                                          order: seq<Name>, items: seq<Name>, n: nat, minimum: real, round: Round)
    requires n > 0
    ensures Changes(a + b, loser, order, items, n, minimum, round)
         == Changes(a, loser, order, items, n, minimum, round) + Changes(b, loser, order, items, n, minimum, round)
    decreases |b|
  {
    if b == [] {
      assert a + b == a;
    } else {
      assert (a + b)[..|a + b| - 1] == a + b[..|b| - 1];
      ChangesInOrder(a, b[..|b| - 1], loser, order, items, n, minimum, round);
    }
  }

  /** When there is room left, every weight scenario is there, once for every winner that outweighs the loser. */
  lemma RoomMeansAll(actual: Match, positives: seq<Match>, order: seq<Name>, limit: int, minimum: real, round: Round,
                     dim: Name)
    requires positives != [] && Distinct(order)
    requires |Scenarios(actual, positives, order, limit, minimum, round)| < limit
    ensures var r := Scenarios(actual, positives, order, limit, minimum, round);
            var c := Confidence(AllDims(positives), dim, |positives|);
            multiset(r)[ChangeWeight(dim, round(c))] ==
              if dim in order && c >= minimum then |Outweighers(positives, actual.weights, dim)| else 0
  {
    var items, n := AllDims(positives), |positives|;
    var c := Confidence(items, dim, n);
    var added := Additions(Candidates(actual, positives), items, n, minimum, round);
    CandidatesMeaning(actual, positives);
    AdditionsMeaning(Candidates(actual, positives), items, n, minimum, round);
    ChangesExactly(positives, actual.weights, order, items, n, minimum, round, dim);
    OnlyInChanges(added, Changes(positives, actual.weights, order, items, n, minimum, round), limit,
                  ChangeWeight(dim, round(c)));
  }

  lemma OnlyInChanges(added: seq<Scenario>, changed: seq<Scenario>, limit: int, x: Scenario)
    requires x.ChangeWeight? && |Cut(added + changed, limit)| < limit
    requires forall k | 0 <= k < |added| :: added[k].AddDimension?
    ensures multiset(Cut(added + changed, limit))[x] == multiset(changed)[x]
  {
    assert Cut(added + changed, limit) == added + changed;
    assert x !in added;
  }

  lemma {:induction false} ChangesOfKind(p: Match, loser: map<Name, Option<real>>, order: seq<Name>,
                                         items: seq<Name>, n: nat, minimum: real, round: Round)
    requires n > 0
    ensures forall s | s in ChangesOf(p, loser, order, items, n, minimum, round) ::
              && s.ChangeWeight?
              && s.confidence == round(Confidence(items, s.dim, n)) && Confidence(items, s.dim, n) >= minimum
              && s.dim in order && Outweighs(p, loser, s.dim)
  {
    if order != [] {
      ChangesOfKind(p, loser, order[..|order| - 1], items, n, minimum, round);
      assert order == order[..|order| - 1] + [order[|order| - 1]];
    }
  }

  /** A missing dimension that reaches the minimum is left out only when the limit is filled with additions
      that are supported at least as well. */
  lemma LeftOutOnlyForBetter(actual: Match, positives: seq<Match>, order: seq<Name>, limit: int, minimum: real,
                             round: Round, dim: Name)
    requires positives != [] && limit > 0
    requires dim in AllDims(positives) && dim !in actual.dims
    requires Confidence(AllDims(positives), dim, |positives|) >= minimum
    ensures var r, items := Scenarios(actual, positives, order, limit, minimum, round), AllDims(positives);
            || (exists s :: s in r && s.AddDimension? && s.dim == dim)
            || (|r| == limit && forall s | s in r :: s.AddDimension? && Tally(items, s.dim) >= Tally(items, dim))
  {
    var r := Scenarios(actual, positives, order, limit, minimum, round);
    var names, items := Candidates(actual, positives), AllDims(positives);
    CandidatesMeaning(actual, positives);
    TopAdditionsExactly(actual, positives, order, limit, minimum, round);
    var k :| 0 <= k < |names| && names[k] == dim;
    if k < limit {
      assert r[k] in r;
    } else {
      forall j | 0 <= j < limit ensures j < |r| && r[j].AddDimension? && Tally(items, names[j]) >= Tally(items, dim) {
        OrderedQuotients(Tally(items, dim) as real, Tally(items, names[j]) as real, |positives| as real);
      }
      assert r[limit - 1].AddDimension?;
    }
  }

  /** A dimension is counted once for every time a winner lists it, so its confidence passes one exactly
      when it is listed more often than there are winners. */
  lemma ConfidenceAboveOneExactly(items: seq<Name>, dim: Name, n: nat)
    requires n > 0
    ensures Confidence(items, dim, n) > 1.0 <==> Tally(items, dim) > n
  {
    if Tally(items, dim) > n {
      StrictQuotients(n as real, Tally(items, dim) as real);
    } else {
      OrderedQuotients(Tally(items, dim) as real, n as real, n as real);
      assert n as real / n as real == 1.0;
    }
  }

  lemma StrictQuotients(n: real, a: real)
    requires 0.0 < n < a
    ensures a / n > 1.0
  {
  }

  lemma {:induction false} TallyOfDistinct(dims: seq<Name>, before: seq<Name>, dim: Name)
    requires Distinct(dims)
    ensures Tally(before + dims, dim) <= Tally(before, dim) + 1
    ensures dim !in dims ==> Tally(before + dims, dim) == Tally(before, dim)
  {
    if dims == [] {
      assert before + dims == before;
    } else {
      var init, last := dims[..|dims| - 1], dims[|dims| - 1];
      TallyOfDistinct(init, before, dim);
      assert (before + dims)[..|before + dims| - 1] == before + init;
      assert last !in init;
      assert dims == init + [last];
    }
  }

  /** When no winner lists a dimension twice, every confidence is a proportion. */
  lemma {:induction false} ConfidenceInUnit(positives: seq<Match>, dim: Name)
    requires forall i | 0 <= i < |positives| :: Distinct(positives[i].dims)
    ensures Tally(AllDims(positives), dim) <= |positives|
  {
    if positives != [] {
      ConfidenceInUnit(positives[..|positives| - 1], dim);
      TallyOfDistinct(positives[|positives| - 1].dims, AllDims(positives[..|positives| - 1]), dim);
    }
  }

  lemma HasMember(s: seq<Name>)
    requires s != []
    ensures exists name :: name in s
  {
    assert s[0] in s;
  }

  /** Two winners that outweigh the loser on the same dimension give the same scenario twice. */
  lemma WeightScenarioRepeats(dim: Name, w: real, minimum: real, round: Round)
    requires w > 0.0 && minimum <= 1.0
    ensures var loser, winner := Match([dim], map[dim := Some(w)]), Match([dim], map[dim := Some(2.0 * w)]);
            Scenarios(loser, [winner, winner], [dim], 2, minimum, round)
            == [ChangeWeight(dim, round(1.0)), ChangeWeight(dim, round(1.0))]
  {
    var loser, winner := Match([dim], map[dim := Some(w)]), Match([dim], map[dim := Some(2.0 * w)]);
    var both := [winner, winner];
    var items := AllDims(both);
    TwoOfOne(dim, winner);
    CandidatesMeaning(loser, both);
    assert Candidates(loser, both) == [] by {
      if Candidates(loser, both) != [] {
        HasMember(Candidates(loser, both));
      }
    }
    ChangesOfTwo(winner, loser.weights, dim, items, minimum, round);
  }

  lemma TwoOfOne(dim: Name, winner: Match)
    requires winner.dims == [dim]
    ensures var items := AllDims([winner, winner]);
            items == [dim, dim] && Confidence(items, dim, 2) == 1.0
  {
    var both := [winner, winner];
    assert both[..1] == [winner] && [winner][..0] == [];
    assert AllDims([winner]) == [dim];
    TallyIsMultiplicity([dim, dim], dim);
  }

  lemma ChangesOfTwo(winner: Match, loser: map<Name, Option<real>>, dim: Name, items: seq<Name>, minimum: real,
                     round: Round)
    requires Outweighs(winner, loser, dim) && Confidence(items, dim, 2) == 1.0 && minimum <= 1.0
    ensures Changes([winner, winner], loser, [dim], items, 2, minimum, round)
         == [ChangeWeight(dim, round(1.0)), ChangeWeight(dim, round(1.0))]
  {
    var one := [ChangeWeight(dim, round(1.0))];
    assert [winner, winner][..1] == [winner] && [winner][..0] == [] && [dim][..0] == [];
    assert ChangesOf(winner, loser, [dim], items, 2, minimum, round) == one;
    assert Changes([winner], loser, [dim], items, 2, minimum, round) == one;
  }
}
