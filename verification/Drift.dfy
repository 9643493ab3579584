/** Drift detection between fingerprints.
    Chi-squared dissimilarity of distributions, and the distance of vectors that are padded to one length.
    A reason is given for each threshold that is passed.
    The vector sees positions and not the names of dimensions. */
module Drift {

  import opened Counting
  import opened Options
  import opened RealArithmetic
  import opened Sequences
  import C = Correlation
  import F = Fingerprints
  import R = Rounding
  import S = MapSums

  type Shares = map<Name, real>

  // ----- chi-squared -----

  function At(m: Shares, name: Name): real {
    if name in m then m[name] else 0.0
  }

  function Term(p: real, q: real, smoothing: real): real
    requires p >= 0.0 && q >= 0.0 && smoothing > 0.0
  {
    (p - q) * (p - q) / (p + q + smoothing)
  }

  ghost function Terms(baseline: Shares, current: Shares, smoothing: real): map<Name, real>
    requires S.NonNegative(baseline) && S.NonNegative(current) && smoothing > 0.0
  {
    map name | name in baseline.Keys + current.Keys :: Term(At(baseline, name), At(current, name), smoothing)
  }

  ghost function ChiSquared(baseline: Shares, current: Shares, smoothing: real): real
    requires S.NonNegative(baseline) && S.NonNegative(current) && smoothing > 0.0
  {
    S.Total(Terms(baseline, current, smoothing))
  }

  /** `chi_squared_dissimilarity`: keys are visited in any order. */
  method ChiSquaredDissimilarity(baseline: Shares, current: Shares, smoothing: real) returns (total: real)
    requires S.NonNegative(baseline) && S.NonNegative(current) && smoothing > 0.0
    ensures total == ChiSquared(baseline, current, smoothing)
  {
    var keys := baseline.Keys + current.Keys;
    if keys == {} {
      return 0.0;
    }
    total := 0.0;
    ghost var terms := Terms(baseline, current, smoothing);
    ghost var rest := terms;
    while keys != {}
      invariant keys == rest.Keys <= baseline.Keys + current.Keys
      invariant forall name {:trigger rest[name]} | name in rest :: rest[name] == terms[name]
      invariant total + S.Total(rest) == S.Total(terms)
      decreases |keys|
    {
      var name :| name in keys;
      S.TotalWithout(rest, name);
      rest := rest - {name};
      var p := if name in baseline then baseline[name] else 0.0;
      var q := if name in current then current[name] else 0.0;
      var term := Term(p, q, smoothing);
      total := total + term;
      keys := keys - {name};
    }
  }

  lemma TermBounds(p: real, q: real, smoothing: real)
    requires p >= 0.0 && q >= 0.0 && smoothing > 0.0
    ensures 0.0 <= Term(p, q, smoothing) <= p + q
    ensures Term(p, q, smoothing) == 0.0 <==> p == q
    ensures Term(p, q, smoothing) == Term(q, p, smoothing)
  {
    var e, sum := p - q, p + q;
    var n := sum + smoothing;
    var square := e * e;
    OppositeSquare(e, q - p, square);
    if e != 0.0 {
      PositiveSquare(e, square);
      SquareBelow(e, sum, n, square);
      PositiveQuotient(square, n);
    }
    DivideOrder(square, n, sum);
  }

  lemma SquareBelow(e: real, sum: real, n: real, square: real)
    requires e != 0.0 && -sum <= e <= sum < n && square == e * e
    ensures square <= n * sum
  {
    var m := if e > 0.0 then e else -e;
    OppositeSquare(e, -e, square);
    ScaleOrder(m, m, sum);
    ScaleOrder(sum, m, n);
  }

  /** When one name alone has another share, the dissimilarity is the squared difference over the smoothed sum. */
  lemma ChiSquaredOfOne(baseline: Shares, current: Shares, smoothing: real, name: Name, p: real, q: real,
                        square: real)
    requires S.NonNegative(baseline) && S.NonNegative(current) && smoothing > 0.0
    requires name in baseline && baseline[name] == p && q == (if name in current then current[name] else 0.0)
    requires forall other | other in baseline && other != name :: other in current && current[other] == baseline[other]
    requires forall other | other in current && other != name :: other in baseline
    requires square == (p - q) * (p - q)
    ensures IsShare(ChiSquared(baseline, current, smoothing), square, p + q + smoothing)
  {
    TermAlone(baseline, current, smoothing, name);
    TermIsShare(p, q, smoothing, square);
  }

  lemma TermIsShare(p: real, q: real, smoothing: real, square: real)
    requires p >= 0.0 && q >= 0.0 && smoothing > 0.0 && square == (p - q) * (p - q)
    ensures IsShare(Term(p, q, smoothing), square, p + q + smoothing)
  {
    ShareOf(square, p + q + smoothing);
  }

  lemma TermAlone(baseline: Shares, current: Shares, smoothing: real, name: Name)
    requires S.NonNegative(baseline) && S.NonNegative(current) && smoothing > 0.0
    requires name in baseline.Keys + current.Keys
    requires forall other | other in baseline.Keys + current.Keys && other != name ::
               At(baseline, other) == At(current, other)
    ensures ChiSquared(baseline, current, smoothing) == Term(At(baseline, name), At(current, name), smoothing)
  {
    var terms := Terms(baseline, current, smoothing);
    S.TotalWithout(terms, name);
    var rest := terms - {name};
    forall other | other in rest ensures rest[other] == 0.0 {
      TermBounds(At(baseline, other), At(current, other), smoothing);
    }
    S.TotalNonNegative(rest);
  }

  /** Never negative, and zero exactly when every name has the same share on both sides, a missing name
      having none. */
  lemma ChiSquaredZeroExactly(baseline: Shares, current: Shares, smoothing: real)
    requires S.NonNegative(baseline) && S.NonNegative(current) && smoothing > 0.0
    ensures ChiSquared(baseline, current, smoothing) >= 0.0
    ensures ChiSquared(baseline, current, smoothing) == 0.0 <==>
            forall name {:trigger At(baseline, name)} :: At(baseline, name) == At(current, name)
  {
    var terms := Terms(baseline, current, smoothing);
    forall name | name in terms
      ensures terms[name] >= 0.0 && (terms[name] == 0.0 <==> At(baseline, name) == At(current, name))
    {
      TermBounds(At(baseline, name), At(current, name), smoothing);
    }
    S.TotalNonNegative(terms);
    if S.Total(terms) == 0.0 {
      forall name ensures At(baseline, name) == At(current, name) {
        assert name in terms ==> terms[name] == 0.0;
      }
    }
  }

  lemma ChiSquaredSymmetric(baseline: Shares, current: Shares, smoothing: real)
    requires S.NonNegative(baseline) && S.NonNegative(current) && smoothing > 0.0
    ensures ChiSquared(baseline, current, smoothing) == ChiSquared(current, baseline, smoothing)
  {
    forall name | name in baseline.Keys + current.Keys
      ensures Terms(baseline, current, smoothing)[name] == Terms(current, baseline, smoothing)[name]
    {
      TermBounds(At(baseline, name), At(current, name), smoothing);
    }
    assert Terms(baseline, current, smoothing) == Terms(current, baseline, smoothing);
  }

  /** At most the two masses together, so at most 2 between distributions. */
  lemma ChiSquaredAtMost(baseline: Shares, current: Shares, smoothing: real)
    requires S.NonNegative(baseline) && S.NonNegative(current) && smoothing > 0.0
    ensures ChiSquared(baseline, current, smoothing) <= S.Total(baseline) + S.Total(current)
  {
    var names := baseline.Keys + current.Keys;
    var b := map name | name in names :: At(baseline, name);
    var c := map name | name in names :: At(current, name);
    forall name | name in names
      ensures Terms(baseline, current, smoothing)[name] <= b[name] + c[name]
    {
      TermBounds(At(baseline, name), At(current, name), smoothing);
    }
    S.TotalBelowSum(Terms(baseline, current, smoothing), b, c);
    S.TotalIgnoresZeros(baseline, b);
    S.TotalIgnoresZeros(current, c);
  }

  // ----- vectors -----

  const DEFAULT_LABELS: seq<Name> := ["very_low", "low", "medium", "high"]

  /** The names of a set in alphabetical order; all that matters here is that each is listed once. */
  type Listing = set<Name> -> seq<Name>

  ghost predicate ListsAt(listing: Listing, names: set<Name>) {
    |listing(names)| == |names| && forall name :: name in listing(names) <==> name in names
  }

  ghost predicate Lists(listing: Listing) {
    forall names {:trigger listing(names)} :: ListsAt(listing, names)
  }

  function ValuesAt(m: Shares, names: seq<Name>): seq<real> {
    seq(|names|, i requires 0 <= i < |names| => At(m, names[i]))
  }

  /** `to_vector` */
  function Vector(f: F.Fingerprint, listing: Listing): seq<real> {
    ValuesAt(f.scores, DEFAULT_LABELS) + ValuesAt(f.dominance, listing(f.dominance.Keys))
    + [f.entropy, f.concentration]
  }

  function Zeros(n: nat): seq<real> {
    seq(n, i => 0.0)
  }

  function Padded(v: seq<real>, n: nat): seq<real> {
    if |v| < n then v + Zeros(n - |v|) else v
  }

  function Longest(a: seq<real>, b: seq<real>): nat {
    if |a| > |b| then |a| else |b|
  }

  function Difference(a: seq<real>, b: seq<real>): seq<real>
    requires |a| == |b|
  {
    seq(|a|, i requires 0 <= i < |a| => a[i] - b[i])
  }

  function SquaredDistance(a: seq<real>, b: seq<real>): real {
    var n := Longest(a, b);
    var d := Difference(Padded(a, n), Padded(b, n));
    C.Dot(d, d)
  }

  /** `_euclidean_distance` */
  method EuclideanDistance(vecA: seq<real>, vecB: seq<real>, root: C.Root) returns (r: real)
    ensures r == root(SquaredDistance(vecA, vecB))
  {
    var a, b := vecA, vecB;
    if |a| != |b| {
      var n := if |a| > |b| then |a| else |b|;
      a, b := Padded(a, n), Padded(b, n);
    }
    var sum := 0.0;
    ghost var d := Difference(a, b);
    for i := 0 to |a|
      invariant sum == C.Dot(d[..i], d[..i])
    {
      assert d[..i + 1][..i] == d[..i];
      var e := a[i] - b[i];
      assert d[..i + 1][i] == e;
      var square := e * e;
      sum := sum + square;
    }
    assert d[..|a|] == d;
    r := root(sum);
  }

  lemma {:induction false} DotOfOpposites(u: seq<real>, v: seq<real>)
    requires |u| == |v| && forall i | 0 <= i < |u| :: v[i] == -u[i]
    ensures C.Dot(u, u) == C.Dot(v, v)
  {
    if u != [] {
      DotOfOpposites(u[..|u| - 1], v[..|v| - 1]);
      OppositeSquare(u[|u| - 1], v[|v| - 1], u[|u| - 1] * u[|u| - 1]);
    }
  }

  lemma DistanceSymmetric(a: seq<real>, b: seq<real>)
    ensures SquaredDistance(a, b) == SquaredDistance(b, a)
  {
    var n := Longest(a, b);
    DotOfOpposites(Difference(Padded(a, n), Padded(b, n)), Difference(Padded(b, n), Padded(a, n)));
  }

  /** Zero exactly for vectors that agree once the shorter one is padded. */
  lemma DistanceZeroExactly(a: seq<real>, b: seq<real>)
    ensures SquaredDistance(a, b) >= 0.0
    ensures SquaredDistance(a, b) == 0.0 <==> Padded(a, Longest(a, b)) == Padded(b, Longest(a, b))
  {
    var n := Longest(a, b);
    var p, q := Padded(a, n), Padded(b, n);
    var d := Difference(p, q);
    C.DotSelf(d);
    C.ZeroDot(d);
    if C.Constant(d, 0.0) {
      forall i | 0 <= i < |p| ensures p[i] == q[i] {
        assert d[i] == 0.0;
      }
    }
  }

  lemma {:induction false} DotOfOne(d: seq<real>, i: nat, square: real)
    requires i < |d| && (forall j | 0 <= j < |d| && j != i :: d[j] == 0.0) && square == d[i] * d[i]
    ensures C.Dot(d, d) == square
  {
    var init := d[..|d| - 1];
    if i < |init| {
      DotOfOne(init, i, square);
    } else {
      C.ZeroDot(init);
      assert C.Constant(init, 0.0);
    }
  }

  /** Vectors that differ in one place are as far apart as their values there. */
  lemma DistanceAlongOne(a: seq<real>, b: seq<real>, i: nat, e: real, square: real)
    requires i < |a| == |b| && (forall j | 0 <= j < |a| && j != i :: a[j] == b[j])
    requires e == a[i] - b[i] && square == e * e
    ensures SquaredDistance(a, b) == square
  {
    DotOfOne(Difference(a, b), i, square);
  }

  lemma RootZero(root: C.Root, v: real)
    requires C.TakesRoots(root) && v >= 0.0
    ensures root(v) == 0.0 <==> v == 0.0
  {
    C.RootOf(root, v);
    if root(v) != 0.0 {
      PositiveSquare(root(v), v);
    }
  }

  // ----- drift -----

  datatype Metrics = Metrics(scores: real, dominance: real, vector: real, entropy: real, concentration: real)

  /** Deltas are current minus baseline. */
  ghost function MetricsOf(b: F.Fingerprint, c: F.Fingerprint, smoothing: real, listing: Listing, root: C.Root): Metrics
    requires Comparable(b, c, smoothing)
  {
    Metrics(
      ChiSquared(b.scores, c.scores, smoothing),
      ChiSquared(b.dominance, c.dominance, smoothing),
      root(SquaredDistance(Vector(b, listing), Vector(c, listing))),
      c.entropy - b.entropy,
      c.concentration - b.concentration)
  }

  ghost predicate Comparable(b: F.Fingerprint, c: F.Fingerprint, smoothing: real) {
    && smoothing > 0.0
    && S.NonNegative(b.scores) && S.NonNegative(c.scores)
    && S.NonNegative(b.dominance) && S.NonNegative(c.dominance)
  }

  datatype Reason =
    | ScoresShifted
    | DominanceShifted
    | VectorFar
    | EntropyChanged(increased: bool)
    | ConcentrationChanged(increased: bool)

  datatype Severity = NoDrift | Low | Medium | High

  datatype Report = Report(metrics: Metrics, detected: bool, reasons: seq<Reason>, severity: Severity)

  function Opposite(r: Reason): Reason {
    match r
    case EntropyChanged(increased) => EntropyChanged(!increased)
    case ConcentrationChanged(increased) => ConcentrationChanged(!increased)
    case _ => r
  }

  function If(condition: bool, r: Reason): seq<Reason> {
    if condition then [r] else []
  }

  function UnsignedReasons(m: Metrics, t: Metrics): seq<Reason> {
    If(m.scores > t.scores, ScoresShifted)
    + If(m.dominance > t.dominance, DominanceShifted)
    + If(m.vector > t.vector, VectorFar)
  }

  function Reasons(m: Metrics, t: Metrics): seq<Reason> {
    UnsignedReasons(m, t)
    + If(F.Magnitude(m.entropy) > t.entropy, EntropyChanged(m.entropy > 0.0))
    + If(F.Magnitude(m.concentration) > t.concentration, ConcentrationChanged(m.concentration > 0.0))
  }

  function SeverityOf(reasons: nat): Severity {
    if reasons == 0 then NoDrift else if reasons == 1 then Low else if reasons == 2 then Medium else High
  }

  ghost function ReportOf(b: F.Fingerprint, c: F.Fingerprint, thresholds: Metrics, smoothing: real,
                          listing: Listing, root: C.Root): Report
    requires Comparable(b, c, smoothing)
  {
    var m := MetricsOf(b, c, smoothing, listing, root);
    var reasons := Reasons(m, thresholds);
    Report(m, reasons != [], reasons, SeverityOf(|reasons|))
  }

  /** `detect_drift` */
  method DetectDrift(b: F.Fingerprint, c: F.Fingerprint, thresholds: Metrics, smoothing: real,
                     listing: Listing, root: C.Root)
    returns (report: Report)
    requires Comparable(b, c, smoothing)
    ensures report == ReportOf(b, c, thresholds, smoothing, listing, root)
  {
    var scores := ChiSquaredDissimilarity(b.scores, c.scores, smoothing);
    var dominance := ChiSquaredDissimilarity(b.dominance, c.dominance, smoothing);
    var vector := EuclideanDistance(Vector(b, listing), Vector(c, listing), root);
    var entropyDelta := c.entropy - b.entropy;
    var concentrationDelta := c.concentration - b.concentration;
    var metrics := Metrics(scores, dominance, vector, entropyDelta, concentrationDelta);
    var reasons := ReasonsFor(metrics, thresholds);
    var detected := |reasons| > 0;
    var severity;
    if !detected {
      severity := NoDrift;
    } else if |reasons| >= 3 {
      severity := High;
    } else if |reasons| >= 2 {
      severity := Medium;
    } else {
      severity := Low;
    }
    report := Report(metrics, detected, reasons, severity);
  }

  method ReasonsFor(m: Metrics, t: Metrics) returns (reasons: seq<Reason>)
    ensures reasons == Reasons(m, t)
  {
    reasons := [];
    if m.scores > t.scores {
      reasons := reasons + [ScoresShifted];
    }
    if m.dominance > t.dominance {
      reasons := reasons + [DominanceShifted];
    }
    if m.vector > t.vector {
      reasons := reasons + [VectorFar];
    }
    assert reasons == UnsignedReasons(m, t);
    if F.Magnitude(m.entropy) > t.entropy {
      reasons := reasons + [EntropyChanged(m.entropy > 0.0)];
    }
    assert reasons == UnsignedReasons(m, t)
                      + If(F.Magnitude(m.entropy) > t.entropy, EntropyChanged(m.entropy > 0.0));
    if F.Magnitude(m.concentration) > t.concentration {
      reasons := reasons + [ConcentrationChanged(m.concentration > 0.0)];
    }
  }

  /** Which threshold is passed, and in which direction. */
  ghost predicate Passed(r: Reason, m: Metrics, t: Metrics) {
    match r
    case ScoresShifted => m.scores > t.scores
    case DominanceShifted => m.dominance > t.dominance
    case VectorFar => m.vector > t.vector
    case EntropyChanged(increased) =>
      (m.entropy > t.entropy || -m.entropy > t.entropy) && (increased <==> m.entropy > 0.0)
    case ConcentrationChanged(increased) =>
      (m.concentration > t.concentration || -m.concentration > t.concentration)
      && (increased <==> m.concentration > 0.0)
  }

  lemma ReasonsMeaning(m: Metrics, t: Metrics)
    ensures forall r :: r in Reasons(m, t) <==> Passed(r, m, t)
    ensures Distinct(Reasons(m, t))
  {
    forall r ensures r in Reasons(m, t) <==> Passed(r, m, t) {}
    DistinctReasons(m, t);
  }

  lemma DistinctIf(reasons: seq<Reason>, condition: bool, r: Reason)
    requires Distinct(reasons) && r !in reasons
    ensures Distinct(reasons + If(condition, r))
  {
  }

  lemma DistinctReasons(m: Metrics, t: Metrics)
    ensures Distinct(Reasons(m, t))
  {
    var same := UnsignedReasons(m, t);
    var e, c := EntropyChanged(m.entropy > 0.0), ConcentrationChanged(m.concentration > 0.0);
    DistinctIf(same, F.Magnitude(m.entropy) > t.entropy, e);
    DistinctIf(same + If(F.Magnitude(m.entropy) > t.entropy, e), F.Magnitude(m.concentration) > t.concentration, c);
  }

  /** The metrics compare current with baseline; a reason is given, once, for each threshold that is passed;
      drift is detected when there is one; and the severity goes by their number. */
  lemma ReportMeaning(b: F.Fingerprint, c: F.Fingerprint, t: Metrics, smoothing: real, listing: Listing, root: C.Root)
    requires Comparable(b, c, smoothing)
    ensures var r := ReportOf(b, c, t, smoothing, listing, root);
            && r.metrics.scores == ChiSquared(b.scores, c.scores, smoothing)
            && r.metrics.dominance == ChiSquared(b.dominance, c.dominance, smoothing)
            && r.metrics.vector == root(SquaredDistance(Vector(b, listing), Vector(c, listing)))
            && r.metrics.entropy == c.entropy - b.entropy
            && r.metrics.concentration == c.concentration - b.concentration
    ensures var r := ReportOf(b, c, t, smoothing, listing, root);
            && (forall x :: x in r.reasons <==> Passed(x, r.metrics, t)) && Distinct(r.reasons)
            && (r.detected <==> |r.reasons| > 0)
            && (r.severity == NoDrift <==> |r.reasons| == 0) && (r.severity == Low <==> |r.reasons| == 1)
            && (r.severity == Medium <==> |r.reasons| == 2) && (r.severity == High <==> |r.reasons| >= 3)
  {
    ReasonsMeaning(MetricsOf(b, c, smoothing, listing, root), t);
  }

  predicate Mirrored(m: Metrics, n: Metrics) {
    n == Metrics(m.scores, m.dominance, m.vector, -m.entropy, -m.concentration)
  }

  predicate NonNegativeThresholds(t: Metrics) {
    t.scores >= 0.0 && t.dominance >= 0.0 && t.vector >= 0.0 && t.entropy >= 0.0 && t.concentration >= 0.0
  }

  lemma MirroredReasons(m: Metrics, n: Metrics, t: Metrics)
    requires Mirrored(m, n)
    ensures |Reasons(m, t)| == |Reasons(n, t)|
    ensures Directed(m, t) <==> forall i | 0 <= i < |Reasons(m, t)| :: Reasons(n, t)[i] == Opposite(Reasons(m, t)[i])
  {
    var same := UnsignedReasons(m, t);
    assert same == UnsignedReasons(n, t);
    assert forall i | 0 <= i < |same| :: Opposite(same[i]) == same[i];
    var e, f := If(F.Magnitude(m.entropy) > t.entropy, EntropyChanged(m.entropy > 0.0)),
                If(F.Magnitude(m.concentration) > t.concentration, ConcentrationChanged(m.concentration > 0.0));
    assert Reasons(m, t) == same + e + f;
    if !(t.entropy >= 0.0 || m.entropy != 0.0) {
      assert Reasons(m, t)[|same|] == EntropyChanged(false) && Reasons(n, t)[|same|] == EntropyChanged(false);
    }
    if !(t.concentration >= 0.0 || m.concentration != 0.0) {
      assert Reasons(m, t)[|same| + |e|] == ConcentrationChanged(false);
      assert Reasons(n, t)[|same| + |e|] == ConcentrationChanged(false);
    }
  }

  /** No change of zero is reported: with a negative threshold it would be, as a fall either way. */
  predicate Directed(m: Metrics, t: Metrics) {
    (t.entropy >= 0.0 || m.entropy != 0.0) && (t.concentration >= 0.0 || m.concentration != 0.0)
  }

  /** With the arguments swapped the verdict, the severity and the number of reasons are the same; and a rise
      becomes a fall and a fall a rise, exactly when no change of zero is reported. */
  lemma DriftIsSymmetric(b: F.Fingerprint, c: F.Fingerprint, t: Metrics, smoothing: real, listing: Listing,
                         root: C.Root)
    requires Comparable(b, c, smoothing)
    ensures var there := ReportOf(b, c, t, smoothing, listing, root);
            var back := ReportOf(c, b, t, smoothing, listing, root);
            && there.detected == back.detected
            && there.severity == back.severity
            && |there.reasons| == |back.reasons|
            && (Directed(there.metrics, t) <==>
                  forall i | 0 <= i < |there.reasons| :: back.reasons[i] == Opposite(there.reasons[i]))
            && Mirrored(there.metrics, back.metrics)
  {
    ChiSquaredSymmetric(b.scores, c.scores, smoothing);
    ChiSquaredSymmetric(b.dominance, c.dominance, smoothing);
    DistanceSymmetric(Vector(b, listing), Vector(c, listing));
    MirroredReasons(MetricsOf(b, c, smoothing, listing, root), MetricsOf(c, b, smoothing, listing, root), t);
  }

  lemma NoDifference(f: F.Fingerprint, smoothing: real, listing: Listing, root: C.Root)
    requires Comparable(f, f, smoothing) && C.TakesRoots(root)
    ensures MetricsOf(f, f, smoothing, listing, root) == Metrics(0.0, 0.0, 0.0, 0.0, 0.0)
  {
    ChiSquaredZeroExactly(f.scores, f.scores, smoothing);
    ChiSquaredZeroExactly(f.dominance, f.dominance, smoothing);
    var v := Vector(f, listing);
    DistanceZeroExactly(v, v);
    RootZero(root, SquaredDistance(v, v));
  }

  /** A fingerprint has not drifted from itself, exactly when no threshold is negative. */
  lemma NoDriftFromItselfExactly(f: F.Fingerprint, t: Metrics, smoothing: real, listing: Listing, root: C.Root)
    requires Comparable(f, f, smoothing) && C.TakesRoots(root)
    ensures ReportOf(f, f, t, smoothing, listing, root).severity == NoDrift <==> NonNegativeThresholds(t)
    ensures ReportOf(f, f, t, smoothing, listing, root).detected <==> !NonNegativeThresholds(t)
  {
    NoDifference(f, smoothing, listing, root);
  }

  // ----- what the vector does not see -----

  /** The vector lists the default buckets, the dimensions in order, the entropy and the concentration. */
  lemma VectorMeaning(f: F.Fingerprint, listing: Listing, i: nat)
    requires Lists(listing) && i < |f.dominance|
    ensures var v, n, name := Vector(f, listing), |f.dominance|, listing(f.dominance.Keys)[i];
            && |v| == n + 6 && name in f.dominance && v[4 + i] == f.dominance[name]
            && v[n + 4] == f.entropy && v[n + 5] == f.concentration
            && v[0] == At(f.scores, "very_low") && v[1] == At(f.scores, "low")
            && v[2] == At(f.scores, "medium") && v[3] == At(f.scores, "high")
  {
    assert ListsAt(listing, f.dominance.Keys);
    assert listing(f.dominance.Keys)[i] in listing(f.dominance.Keys);
  }

  /** `to_vector` speaks of a fixed length, but the length follows the number of dimensions. */
  lemma VectorLength(f: F.Fingerprint, listing: Listing)
    requires Lists(listing)
    ensures |Vector(f, listing)| == |f.dominance| + 6
  {
    assert ListsAt(listing, f.dominance.Keys);
  }

  /** Between fingerprints with the same dimensions the distance is zero exactly when entropy, concentration,
      every dominance and every default bucket agree. */
  lemma SameDimensionsDistance(b: F.Fingerprint, c: F.Fingerprint, listing: Listing)
    requires Lists(listing) && b.dominance.Keys == c.dominance.Keys
    ensures SquaredDistance(Vector(b, listing), Vector(c, listing)) == 0.0 <==>
            && b.dominance == c.dominance && b.entropy == c.entropy && b.concentration == c.concentration
            && forall i | 0 <= i < |DEFAULT_LABELS| ::
              At(b.scores, DEFAULT_LABELS[i]) == At(c.scores, DEFAULT_LABELS[i])
  {
    var names := listing(b.dominance.Keys);
    assert ListsAt(listing, b.dominance.Keys);
    var v, w := Vector(b, listing), Vector(c, listing);
    DistanceZeroExactly(v, w);
    SplitEqual(ValuesAt(b.scores, DEFAULT_LABELS), ValuesAt(b.dominance, names), [b.entropy, b.concentration],
               ValuesAt(c.scores, DEFAULT_LABELS), ValuesAt(c.dominance, names), [c.entropy, c.concentration]);
    assert ValuesAt(b.dominance, names) == ValuesAt(c.dominance, names) <==> b.dominance == c.dominance by {
      if ValuesAt(b.dominance, names) == ValuesAt(c.dominance, names) {
        forall name | name in b.dominance ensures b.dominance[name] == c.dominance[name] {
          assert name in names;
          var i :| 0 <= i < |names| && names[i] == name;
          assert ValuesAt(b.dominance, names)[i] == ValuesAt(c.dominance, names)[i];
        }
      }
    }
    assert ValuesAt(b.scores, DEFAULT_LABELS) == ValuesAt(c.scores, DEFAULT_LABELS) <==>
           forall i | 0 <= i < |DEFAULT_LABELS| ::
               At(b.scores, DEFAULT_LABELS[i]) == At(c.scores, DEFAULT_LABELS[i]) by {
      if ValuesAt(b.scores, DEFAULT_LABELS) == ValuesAt(c.scores, DEFAULT_LABELS) {
        forall i | 0 <= i < |DEFAULT_LABELS|
          ensures At(b.scores, DEFAULT_LABELS[i]) == At(c.scores, DEFAULT_LABELS[i])
        {
          assert ValuesAt(b.scores, DEFAULT_LABELS)[i] == ValuesAt(c.scores, DEFAULT_LABELS)[i];
        }
      }
    }
    assert [b.entropy, b.concentration] == [c.entropy, c.concentration] <==>
           b.entropy == c.entropy && b.concentration == c.concentration by {
      assert [b.entropy, b.concentration][0] == b.entropy && [c.entropy, c.concentration][0] == c.entropy;
      assert [b.entropy, b.concentration][1] == b.concentration && [c.entropy, c.concentration][1] == c.concentration;
    }
  }

  lemma SplitEqual(a: seq<real>, b: seq<real>, c: seq<real>, p: seq<real>, q: seq<real>, r: seq<real>)
    requires |a| == |p| && |b| == |q| && |c| == |r|
    ensures a + b + c == p + q + r <==> a == p && b == q && c == r
  {
    if a + b + c == p + q + r {
      assert a == (a + b + c)[..|a|] && p == (p + q + r)[..|a|];
      assert b == (a + b + c)[|a|..|a| + |b|] && q == (p + q + r)[|a|..|a| + |b|];
      assert c == (a + b + c)[|a| + |b|..] && r == (p + q + r)[|a| + |b|..];
    }
  }

  /** With positive concentrations padding never helps: the distance is zero exactly when there are equally
      many dimensions and the listed values agree one by one, whatever the dimensions are called. */
  lemma ZeroDistanceExactly(b: F.Fingerprint, c: F.Fingerprint, listing: Listing)
    requires Lists(listing) && b.concentration > 0.0 && c.concentration > 0.0
    ensures SquaredDistance(Vector(b, listing), Vector(c, listing)) == 0.0 <==>
            && |b.dominance| == |c.dominance| && b.entropy == c.entropy && b.concentration == c.concentration
            && ValuesAt(b.scores, DEFAULT_LABELS) == ValuesAt(c.scores, DEFAULT_LABELS)
            && ValuesAt(b.dominance, listing(b.dominance.Keys)) == ValuesAt(c.dominance, listing(c.dominance.Keys))
  {
    var v, w := Vector(b, listing), Vector(c, listing);
    var n := Longest(v, w);
    VectorLength(b, listing);
    VectorLength(c, listing);
    DistanceZeroExactly(v, w);
    if |b.dominance| != |c.dominance| {
      assert v[|v| - 1] == b.concentration && w[|w| - 1] == c.concentration;
      assert Padded(v, n)[n - 1] != Padded(w, n)[n - 1];
    } else {
      SplitEqual(ValuesAt(b.scores, DEFAULT_LABELS), ValuesAt(b.dominance, listing(b.dominance.Keys)),
                 [b.entropy, b.concentration],
                 ValuesAt(c.scores, DEFAULT_LABELS), ValuesAt(c.dominance, listing(c.dominance.Keys)),
                 [c.entropy, c.concentration]);
      PairEqual(b.entropy, b.concentration, c.entropy, c.concentration);
    }
  }

  lemma PairEqual(a: real, b: real, c: real, d: real)
    ensures [a, b] == [c, d] <==> a == c && b == d
  {
    assert [a, b][0] == a && [c, d][0] == c && [a, b][1] == b && [c, d][1] == d;
  }

  /** The same share for every name. */
  function Even(names: set<Name>, share: real): Shares {
    map name | name in names :: share
  }

  /** Positions are compared, not names: equally many dimensions with even shares are at distance zero, even
      when the two fingerprints have no dimension in common. */
  lemma UnlikeDimensionsCompareEqual(f: F.Fingerprint, x: set<Name>, y: set<Name>, share: real, listing: Listing)
    requires Lists(listing) && |x| == |y|
    ensures SquaredDistance(Vector(f.(dominance := Even(x, share)), listing),
                            Vector(f.(dominance := Even(y, share)), listing)) == 0.0
  {
    assert Even(x, share).Keys == x && Even(y, share).Keys == y;
    assert ListsAt(listing, x) && ListsAt(listing, y);
    forall i | 0 <= i < |x|
      ensures ValuesAt(Even(x, share), listing(x))[i] == share && ValuesAt(Even(y, share), listing(y))[i] == share
    {
      assert listing(x)[i] in listing(x) && listing(y)[i] in listing(y);
    }
    assert ValuesAt(Even(x, share), listing(x)) == ValuesAt(Even(y, share), listing(y));
    DistanceZeroExactly(Vector(f.(dominance := Even(x, share)), listing),
                        Vector(f.(dominance := Even(y, share)), listing));
  }

  // Fingerprints that `compute_fingerprint` returns, one candidate for each dimension.

  /** For each name a candidate that has only this dimension, all with the same score. */
  function OneForEach(names: seq<Name>): seq<F.Candidate> {
    if names == [] then []
    else OneForEach(names[..|names| - 1]) + [F.Candidate(Some(1.0), [(names[|names| - 1], 1.0)])]
  }

  /** A batch that has exactly these dimensions. */
  function BatchFor(names: seq<Name>): seq<F.Candidate> {
    if names == [] then [F.Candidate(Some(1.0), [])] else OneForEach(names)
  }

  /** The bucket that all of them fall into. */
  function BucketOfOnes(boundaries: seq<real>, labels: seq<Name>): Name
    requires F.Fits(boundaries, labels)
  {
    labels[F.BucketFrom(1.0, boundaries, labels, 0)]
  }

  lemma OneMore(names: seq<Name>)
    requires names != []
    ensures var all, last := OneForEach(names), names[|names| - 1];
            all == OneForEach(names[..|names| - 1]) + [F.Candidate(Some(1.0), [(last, 1.0)])]
            && F.Winner(all[|all| - 1]) == [last]
  {
  }

  lemma {:induction false} OneForEachWinners(names: seq<Name>)
    ensures |OneForEach(names)| == |names| && F.Winners(OneForEach(names)) == names
  {
    if names != [] {
      OneMore(names);
      OneForEachWinners(names[..|names| - 1]);
      var all := OneForEach(names);
      assert all[..|all| - 1] == OneForEach(names[..|names| - 1]);
    }
  }

  lemma {:induction false} OneForEachCounts(names: seq<Name>, boundaries: seq<real>, labels: seq<Name>, bin: Name)
    requires F.Fits(boundaries, labels)
    ensures Tally(F.Buckets(OneForEach(names), boundaries, labels), bin)
         == if bin == BucketOfOnes(boundaries, labels) then |names| else 0
  {
    if names != [] {
      OneMore(names);
      OneForEachCounts(names[..|names| - 1], boundaries, labels, bin);
      var all := OneForEach(names);
      assert all[..|all| - 1] == OneForEach(names[..|names| - 1]);
      var buckets := F.Buckets(all, boundaries, labels);
      assert buckets[..|buckets| - 1] == F.Buckets(all[..|all| - 1], boundaries, labels);
    }
  }

  lemma BatchCounts(names: seq<Name>, boundaries: seq<real>, labels: seq<Name>, bin: Name)
    requires F.Fits(boundaries, labels)
    ensures var batch := BatchFor(names);
            && batch != [] && F.Winners(batch) == names && |batch| == (if names == [] then 1 else |names|)
            && Tally(F.Buckets(batch, boundaries, labels), bin)
            == if bin == BucketOfOnes(boundaries, labels) then |batch| else 0
  {
    if names == [] {
      var batch := BatchFor(names);
      assert batch[..0] == [];
      var buckets := F.Buckets(batch, boundaries, labels);
      assert buckets == [BucketOfOnes(boundaries, labels)] && buckets[..0] == [];
    } else {
      OneForEachWinners(names);
      OneForEachCounts(names, boundaries, labels, bin);
    }
  }

  /** One bucket holds everything. */
  function OneBucket(labels: seq<Name>, bucket: Name): Shares {
    map name | name in labels :: if name == bucket then 1.0 else 0.0
  }

  /** What `compute_fingerprint` returns for that batch. */
  ghost function EvenFingerprint(names: seq<Name>, boundaries: seq<real>, labels: seq<Name>, log2: real -> real,
                                 round: R.Round): F.Fingerprint
    requires F.Fits(boundaries, labels)
  {
    var scores := OneBucket(labels, BucketOfOnes(boundaries, labels));
    F.Fingerprint(|BatchFor(names)|, scores, Even(Elements(names), 1.0 / |BatchFor(names)| as real),
                  round(S.Total(F.EntropyTerms(scores, log2))),
                  if names == [] then None else Some(names[0]), round(1.0))
  }

  lemma {:induction false} TallyOnce(names: seq<Name>, name: Name)
    requires Distinct(names) && name in names
    ensures Tally(names, name) == 1
  {
    var init, last := names[..|names| - 1], names[|names| - 1];
    assert names == init + [last];
    if name == last {
      TallyAbsent(init, name);
      assert name !in init;
    } else {
      TallyOnce(init, name);
    }
  }

  lemma {:induction false} FirstOfFirsts(names: seq<Name>)
    requires names != []
    ensures Firsts(names) != [] && Firsts(names)[0] == names[0]
  {
    if |names| > 1 {
      FirstOfFirsts(names[..|names| - 1]);
    } else {
      assert names[..0] == [] && Firsts(names[..0]) == [];
    }
  }

  lemma WholeShare(n: nat)
    requires n > 0
    ensures n as real / n as real == 1.0 && 0 as real / n as real == 0.0
  {
  }

  lemma EvenScores(names: seq<Name>, boundaries: seq<real>, labels: seq<Name>)
    requires F.Fits(boundaries, labels)
    ensures var scores := OneBucket(labels, BucketOfOnes(boundaries, labels));
            && F.SharesOf(scores, Elements(labels), F.Buckets(BatchFor(names), boundaries, labels))
            && F.LargestIn(scores, 1.0)
  {
    var bucket := BucketOfOnes(boundaries, labels);
    var scores, buckets := OneBucket(labels, bucket), F.Buckets(BatchFor(names), boundaries, labels);
    BatchCounts(names, boundaries, labels, bucket);
    WholeShare(|BatchFor(names)|);
    forall name | name in Elements(labels) ensures F.ShareAt(scores[name], buckets, name) {
      BatchCounts(names, boundaries, labels, name);
    }
    assert scores[bucket] == 1.0;
  }

  lemma EvenShare(names: seq<Name>, name: Name)
    requires Distinct(names) && name in names
    ensures F.ShareAt(1.0 / |names| as real, names, name)
  {
    TallyOnce(names, name);
    assert Tally(names, name) as real == 1.0;
  }

  lemma EvenDominance(names: seq<Name>, share: real)
    requires Distinct(names) && names != [] && share == 1.0 / |names| as real
    ensures F.SharesOf(Even(Elements(names), share), Elements(names), names)
  {
    forall name | name in names ensures F.ShareAt(share, names, name) {
      EvenShare(names, name);
    }
  }

  lemma FirstIsMostCommon(names: seq<Name>)
    requires Distinct(names) && names != []
    ensures F.MostCommonAt(Firsts(names), names, 0) && Firsts(names)[0] == names[0]
  {
    FirstOfFirsts(names);
    forall name | name in Firsts(names) ensures Tally(names, name) == 1 {
      TallyOnce(names, name);
    }
  }

  lemma EvenIsComputed(names: seq<Name>, boundaries: seq<real>, labels: seq<Name>, log2: real -> real, round: R.Round)
    requires F.Fits(boundaries, labels) && Distinct(names)
    ensures F.IsFingerprintOf(EvenFingerprint(names, boundaries, labels, log2, round), BatchFor(names), boundaries,
                              labels, log2, round)
  {
    BatchCounts(names, boundaries, labels, labels[0]);
    EvenScores(names, boundaries, labels);
    if names != [] {
      EvenDominance(names, 1.0 / |names| as real);
      FirstIsMostCommon(names);
    } else {
      assert EvenFingerprint(names, boundaries, labels, log2, round).dominance == map[];
    }
  }

  /** `compute_fingerprint` returns the fingerprint for some batch. */
  ghost predicate Computed(f: F.Fingerprint, boundaries: seq<real>, labels: seq<Name>, log2: real -> real,
                           round: R.Round)
    requires F.Fits(boundaries, labels)
  {
    exists candidates :: candidates != [] && F.IsFingerprintOf(f, candidates, boundaries, labels, log2, round)
  }

  /** The fingerprints have these dimensions, positive concentrations, and distance zero. */
  ghost predicate CompareEqual(b: F.Fingerprint, c: F.Fingerprint, x: set<Name>, y: set<Name>, listing: Listing) {
    && b.dominance.Keys == x && c.dominance.Keys == y && b.concentration > 0.0 && c.concentration > 0.0
    && SquaredDistance(Vector(b, listing), Vector(c, listing)) == 0.0
  }

  lemma EvenVector(names: seq<Name>, boundaries: seq<real>, labels: seq<Name>, log2: real -> real, round: R.Round)
    requires F.Fits(boundaries, labels) && R.RoundsToSix(round)
    ensures var f := EvenFingerprint(names, boundaries, labels, log2, round);
            f.dominance.Keys == Elements(names) && f.concentration == 1.0
  {
  }

  lemma EvenCompareEqual(x: set<Name>, y: set<Name>, listing: Listing, boundaries: seq<real>, labels: seq<Name>,
                         log2: real -> real, round: R.Round)
    requires Lists(listing) && F.Fits(boundaries, labels) && R.RoundsToSix(round) && |x| == |y|
    ensures CompareEqual(EvenFingerprint(listing(x), boundaries, labels, log2, round),
                         EvenFingerprint(listing(y), boundaries, labels, log2, round), x, y, listing)
  {
    var b, c := EvenFingerprint(listing(x), boundaries, labels, log2, round),
                EvenFingerprint(listing(y), boundaries, labels, log2, round);
    EvenVector(listing(x), boundaries, labels, log2, round);
    EvenVector(listing(y), boundaries, labels, log2, round);
    SameBatchSize(x, y, listing, boundaries, labels);
    var share := 1.0 / |BatchFor(listing(x))| as real;
    UnlikeDimensionsCompareEqual(b, x, y, share, listing);
    assert b.dominance == Even(x, share) && c.dominance == Even(y, share);
    assert b.(dominance := Even(x, share)) == b;
    assert Vector(b.(dominance := c.dominance), listing) == Vector(c, listing);
  }

  lemma SameBatchSize(x: set<Name>, y: set<Name>, listing: Listing, boundaries: seq<real>, labels: seq<Name>)
    requires Lists(listing) && F.Fits(boundaries, labels) && |x| == |y|
    ensures |BatchFor(listing(x))| == |BatchFor(listing(y))|
    ensures Elements(listing(x)) == x && Elements(listing(y)) == y
  {
    assert ListsAt(listing, x) && ListsAt(listing, y);
    BatchCounts(listing(x), boundaries, labels, labels[0]);
    BatchCounts(listing(y), boundaries, labels, labels[0]);
  }

  lemma ListedOnce(listing: Listing, names: set<Name>)
    requires Lists(listing)
    ensures Distinct(listing(names))
  {
    assert ListsAt(listing, names);
    ElementCount(listing(names));
    assert Elements(listing(names)) == names;
  }

  /** `compute_fingerprint` can return fingerprints with these dimensions at distance zero exactly when the
      dimensions are equally many. */
  lemma CanCompareEqualExactly(x: set<Name>, y: set<Name>, listing: Listing, boundaries: seq<real>, labels: seq<Name>,
                               log2: real -> real, round: R.Round)
    requires Lists(listing) && F.Fits(boundaries, labels) && R.RoundsToSix(round)
    ensures (exists b, c ::
               && Computed(b, boundaries, labels, log2, round) && Computed(c, boundaries, labels, log2, round)
               && CompareEqual(b, c, x, y, listing))
            <==> |x| == |y|
  {
    if b, c :| CompareEqual(b, c, x, y, listing) {
      ZeroDistanceExactly(b, c, listing);
    }
    if |x| == |y| {
      ListedOnce(listing, x);
      ListedOnce(listing, y);
      EvenIsComputed(listing(x), boundaries, labels, log2, round);
      EvenIsComputed(listing(y), boundaries, labels, log2, round);
      BatchCounts(listing(x), boundaries, labels, labels[0]);
      BatchCounts(listing(y), boundaries, labels, labels[0]);
      EvenCompareEqual(x, y, listing, boundaries, labels, log2, round);
    }
  }
}
