/** The autonomy levels.
    The metrics row is stored once, and so is one object that every update changes in place.
    The controller raises the stored level one step at a time, and reports another one off the flags.
    Runs of logging, updates and graduations say what both have to do with the history. */
module Autonomy {

  import opened Options
  import opened RealArithmetic
  import C = Correlation

  datatype Level = L2 | L3 | L4 | L5

  function Rank(level: Level): nat {
    match level
    case L2 => 0
    case L3 => 1
    case L4 => 2
    case L5 => 3
  }

  datatype Audit = Pass | Conditional | Fail

  /** `GMPExecutionResult`, as far as an update reads it. */
  datatype Execution = Execution(errors: nat, confidence: real, audit: Audit)

  predicate IsPerfect(e: Execution) {
    e.errors == 0 && e.confidence >= 95.0 && e.audit == Pass
  }

  datatype Row = Row(level: Level, streak: nat, score: real, ready3: bool, ready4: bool, ready5: bool)

  /** The column defaults. */
  const FRESH := Row(L2, 0, 0.0, false, false, false)

  /** Confidences are between 0 and 100, and an update reads at most ten. */
  predicate Confidences(recent: seq<real>) {
    |recent| <= 10 && forall i | 0 <= i < |recent| :: 0.0 <= recent[i] <= 100.0
  }

  function Consistency(recent: seq<real>, root: C.Root): real
    requires recent != []
  {
    1.0 - root(C.Variance(recent)) / 100.0
  }

  /** The row after an update; `recent` are the confidences it reads from the history. */
  function Updated(row: Row, e: Execution, recent: seq<real>, root: C.Root): Row {
    var streak := if IsPerfect(e) then row.streak + 1 else 0;
    var ready3 := row.ready3 || streak >= 10;
    if |recent| < 5 then row.(streak := streak, ready3 := ready3)
    else
      var score := Clamp(Consistency(recent, root));
      row.(streak := streak, ready3 := ready3, score := score, ready4 := row.ready4 || score >= 0.95)
  }

  predicate Ready(row: Row) {
    match row.level
    case L2 => row.ready3
    case L3 => row.ready4
    case L4 => row.ready5
    case L5 => false
  }

  function Above(level: Level): Level {
    match level
    case L2 => L3
    case L3 => L4
    case _ => L5
  }

  function Graduated(row: Row): Row {
    if Ready(row) then row.(level := Above(row.level)) else row
  }

  /** `get_current_autonomy_level` */
  function Reported(row: Row): Level {
    if row.ready5 then L5 else if row.ready4 then L4 else if row.ready3 then L3 else L2
  }

  /** What `can_graduate_to_next_level` answers. */
  datatype Answer = CanGraduate | NeedPerfect(count: int) | NeedConsistency(percent: nat) | NeedAudit

  class AutonomyMetrics {
    var level: Level
    var streak: nat
    var score: real
    var ready3: bool
    var ready4: bool
    var ready5: bool

    function Contents(): Row
      reads this
    {
      Row(level, streak, score, ready3, ready4, ready5)
    }

    constructor ()
      ensures Contents() == FRESH
      ensures level == L2 && streak == 0 && score == 0.0 && !ready3 && !ready4 && !ready5
    {
      level, streak, score := L2, 0, 0.0;
      ready3, ready4, ready5 := false, false, false;
    }

    /** `update_autonomy_metrics` */
    method Update(e: Execution, recent: seq<real>, root: C.Root)
      modifies this
      ensures Contents() == Updated(old(Contents()), e, recent, root)
      ensures level == old(level) && ready5 == old(ready5)
      ensures streak == if e.errors == 0 && e.confidence >= 95.0 && e.audit == Pass then old(streak) + 1 else 0
      ensures ready3 <==> old(ready3) || streak >= 10
      ensures |recent| < 5 ==> score == old(score)
      ensures ready4 <==> old(ready4) || (|recent| >= 5 && score >= 0.95)
    {
      if IsPerfect(e) {
        streak := streak + 1;
      } else {
        streak := 0;
      }
      if streak >= 10 {
        ready3 := true;
      }
      if |recent| >= 5 {
        var total := C.Total(recent);
        var average := total / |recent| as real;
        var squares := C.SumOfProducts(recent, average, recent, average);
        var variance := squares / |recent| as real;
        var consistency := 1.0 - root(variance) / 100.0;
        score := if consistency < 1.0 then consistency else 1.0;
        if score <= 0.0 {
          score := 0.0;
        }
        if score >= 0.95 {
          ready4 := true;
        }
      }
    }

    /** `can_graduate_to_next_level` */
    method CanGraduateToNextLevel() returns (answer: Answer)
      ensures answer == CanGraduate <==> Ready(Contents())
      ensures answer == CanGraduate <==> (level == L2 && ready3) || (level == L3 && ready4) || (level == L4 && ready5)
      ensures answer.NeedPerfect? <==> level == L2 && !ready3
      ensures answer.NeedPerfect? ==> answer.count == 10 - streak
      ensures answer.NeedConsistency? <==> level == L3 && !ready4
      ensures answer.NeedConsistency? ==>
        var gap := 95.0 - score * 100.0;
        if gap < 1.0 then answer.percent == 0 else answer.percent as real <= gap < answer.percent as real + 1.0
    {
      if level == L2 && ready3 {
        return CanGraduate;
      }
      if level == L3 && ready4 {
        return CanGraduate;
      }
      if level == L4 && ready5 {
        return CanGraduate;
      }
      if level == L2 {
        return NeedPerfect(10 - streak);
      }
      if level == L3 {
        var gap := 95.0 - score * 100.0;
        var percent := if gap < 0.0 then 0 else gap.Floor;
        return NeedConsistency(percent);
      }
      return NeedAudit;
    }

    /** `graduate_to_next_level` */
    method GraduateToNextLevel() returns (success: bool)
      modifies this
      ensures success == Ready(old(Contents()))
      ensures Contents() == Graduated(old(Contents()))
      ensures success <==> (old(level) == L2 && ready3) || (old(level) == L3 && ready4) || (old(level) == L4 && ready5)
      ensures success ==> (old(level), level) in {(L2, L3), (L3, L4), (L4, L5)}
      ensures !success ==> level == old(level)
      ensures streak == old(streak) && score == old(score)
      ensures ready3 == old(ready3) && ready4 == old(ready4) && ready5 == old(ready5)
    {
      var answer := CanGraduateToNextLevel();
      if answer != CanGraduate {
        return false;
      }
      if level == L2 {
        level := L3;
      } else if level == L3 {
        level := L4;
      } else if level == L4 {
        level := L5;
      } else {
        return false;
      }
      return true;
    }

    /** `get_current_autonomy_level` */
    method GetCurrentAutonomyLevel() returns (current: Level)
      ensures current == Reported(Contents())
      ensures current == L5 <==> ready5
      ensures current == L4 <==> ready4 && !ready5
      ensures current == L3 <==> ready3 && !ready4 && !ready5
    {
      if ready5 {
        return L5;
      }
      if ready4 {
        return L4;
      }
      if ready3 {
        return L3;
      }
      return L2;
    }
  }

  // ----- the consistency score -----

  /** Confidences in [0, 100] give a score in [0.5, 1] before it is clamped, so clamping changes nothing,
      and the 0.95 threshold asks for a variance of at most 25. */
  lemma ScoreBounds(recent: seq<real>, root: C.Root)
    requires recent != [] && Confidences(recent) && C.TakesRoots(root)
    ensures 0.5 <= Consistency(recent, root) <= 1.0
    ensures Clamp(Consistency(recent, root)) == Consistency(recent, root)
    ensures Consistency(recent, root) >= 0.95 <==> C.Variance(recent) <= 25.0
  {
    var v := C.Variance(recent);
    C.VarianceBound(recent, 100.0);
    C.RootOf(root, v);
    RootOrder(root(v), v, 50.0, 2500.0);
    RootOrder(root(v), v, 5.0, 25.0);
  }

  /** After an update that reads five or more, the score falls short of 1 by a hundredth of the standard
      deviation, whatever the row was. */
  lemma ScoreOfUpdate(row: Row, e: Execution, recent: seq<real>, root: C.Root)
    requires |recent| >= 5 && Confidences(recent) && C.TakesRoots(root)
    ensures (1.0 - Updated(row, e, recent, root).score) * 100.0 == root(C.Variance(recent))
    ensures 0.5 <= Updated(row, e, recent, root).score <= 1.0
  {
    ScoreBounds(recent, root);
  }

  lemma RootOrder(r: real, v: real, bound: real, square: real)
    requires r >= 0.0 && r * r == v && bound > 0.0 && bound * bound == square
    ensures r <= bound <==> v <= square
  {
    if r > bound {
      LargerSquare(r, bound, v, square);
    } else if 0.0 < r < bound {
      LargerSquare(bound, r, square, v);
    }
  }

  // ----- runs -----

  /** An execution in the history table, as far as an update reads it. */
  datatype Logged = Logged(confidence: real, created: int)

  /** `log_execution`, `update_autonomy_metrics` with the rows its query returns, `graduate_to_next_level`. */
  datatype Step = Log(entry: Logged) | Update(execution: Execution, recent: seq<Logged>) | Graduate

  function ConfidencesOf(recent: seq<Logged>): (r: seq<real>)
    ensures |r| == |recent|
  {
    seq(|recent|, i requires 0 <= i < |recent| => recent[i].confidence)
  }

  /** What was logged in a run, in order. */
  function History(steps: seq<Step>): seq<Logged> {
    if steps == [] then []
    else
      History(steps[..|steps| - 1])
      + match steps[|steps| - 1]
        case Log(entry) => [entry]
        case _ => []
  }

  predicate Descending(recent: seq<Logged>) {
    forall i, j | 0 <= i < j < |recent| :: recent[i].created >= recent[j].created
  }

  predicate AllSince(recent: seq<Logged>, moment: int) {
    forall i | 0 <= i < |recent| :: recent[i].created >= moment
  }

  /** The row is read as often as it is there, or left out, once or more, for no earlier row. */
  predicate RowRead(history: seq<Logged>, recent: seq<Logged>, e: Logged) {
    var read, there := multiset(recent)[e], multiset(history)[e];
    read <= there && (read < there ==> AllSince(recent, e.created))
  }

  /** The query: the latest rows, at most `limit` of them, latest first. Which of several rows of one moment come
      first is open. */
  ghost predicate IsLatest(history: seq<Logged>, recent: seq<Logged>, limit: nat) {
    && |recent| == (if |history| <= limit then |history| else limit)
    && Descending(recent)
    && forall e :: RowRead(history, recent, e)
  }

  lemma ReadIsLogged(history: seq<Logged>, recent: seq<Logged>, e: Logged)
    requires RowRead(history, recent, e) && e in recent
    ensures e in history
  {
    assert e in multiset(recent) && e in multiset(history);
  }

  /** The step can follow the steps before it: confidences are validated, and an update reads the last ten rows. */
  ghost predicate Allowed(before: seq<Step>, step: Step) {
    match step
    case Log(entry) => 0.0 <= entry.confidence <= 100.0
    case Update(_, recent) => IsLatest(History(before), recent, 10)
    case Graduate => true
  }

  ghost predicate Possible(steps: seq<Step>) {
    forall i | 0 <= i < |steps| :: Allowed(steps[..i], steps[i])
  }

  lemma PossibleBefore(steps: seq<Step>)
    requires Possible(steps) && steps != []
    ensures Possible(steps[..|steps| - 1])
  {
    var before := steps[..|steps| - 1];
    forall i | 0 <= i < |before| ensures Allowed(before[..i], before[i]) {
      assert before[..i] == steps[..i] && Allowed(steps[..i], steps[i]);
    }
  }

  lemma {:induction false} LoggedConfidences(steps: seq<Step>, e: Logged)
    requires Possible(steps) && e in History(steps)
    ensures 0.0 <= e.confidence <= 100.0
  {
    var before, last := steps[..|steps| - 1], steps[|steps| - 1];
    assert Allowed(steps[..|steps| - 1], last);
    PossibleBefore(steps);
    if e in History(before) {
      LoggedConfidences(before, e);
    }
  }

  lemma ReadConfidences(steps: seq<Step>, recent: seq<Logged>)
    requires Possible(steps) && IsLatest(History(steps), recent, 10)
    ensures Confidences(ConfidencesOf(recent))
  {
    forall i | 0 <= i < |recent| ensures 0.0 <= recent[i].confidence <= 100.0 {
      ReadIsLogged(History(steps), recent, recent[i]);
      LoggedConfidences(steps, recent[i]);
    }
  }

  predicate Rising(history: seq<Logged>) {
    forall i, j | 0 <= i < j < |history| :: history[i].created < history[j].created
  }

  /** The last rows logged, the last one first. */
  function LastLogged(history: seq<Logged>, limit: nat): (r: seq<Logged>)
    ensures forall e | e in r :: e in history
  {
    if history == [] || limit == 0 then []
    else [history[|history| - 1]] + LastLogged(history[..|history| - 1], limit - 1)
  }

  /** When executions are logged in the order of their moments, the query returns the last ones logged. */
  lemma {:induction false} LatestAreLastLogged(history: seq<Logged>, recent: seq<Logged>, limit: nat)
    requires Rising(history)
    ensures IsLatest(history, recent, limit) <==> recent == LastLogged(history, limit)
    decreases |history|
  {
    if history == [] || limit == 0 {
      NoneAreLatest(history, recent, limit);
    } else {
      var init, last := history[..|history| - 1], history[|history| - 1];
      if recent != [] && recent[0] == last {
        assert recent == [last] + recent[1..] && history == init + [last];
        LatestAreLastLogged(init, recent[1..], limit - 1);
        LatestOfOneMore(init, last, recent[1..], limit);
      } else if IsLatest(history, recent, limit) {
        LatestStartsWithLast(history, recent, limit);
      }
    }
  }

  lemma NoneAreLatest(history: seq<Logged>, recent: seq<Logged>, limit: nat)
    requires history == [] || limit == 0
    ensures IsLatest(history, recent, limit) <==> recent == []
  {
    if recent == [] {
      forall e ensures RowRead(history, recent, e) {}
    }
  }

  lemma EarlierThanLast(history: seq<Logged>, last: Logged, e: Logged)
    requires Rising(history + [last]) && e in history
    ensures e.created < last.created
  {
    var all := history + [last];
    var i :| 0 <= i < |history| && history[i] == e;
    assert all[i] == e && all[|history|] == last;
  }

  lemma RowOfOneMore(history: seq<Logged>, last: Logged, recent: seq<Logged>, e: Logged)
    requires Rising(history + [last])
    ensures RowRead(history + [last], [last] + recent, e) <==> RowRead(history, recent, e)
  {
    var all, read := history + [last], [last] + recent;
    assert multiset(all)[e] == multiset(history)[e] + if e == last then 1 else 0;
    assert multiset(read) == multiset{last} + multiset(recent);
    if e in history {
      EarlierThanLast(history, last, e);
      assert AllSince(read, e.created) <==> AllSince(recent, e.created) by {
        assert forall i | 0 <= i < |recent| :: read[i + 1] == recent[i];
      }
    } else {
      assert multiset(history)[e] == 0;
    }
  }

  lemma DescendingOfOneMore(history: seq<Logged>, last: Logged, recent: seq<Logged>)
    requires Rising(history + [last]) && forall e :: RowRead(history, recent, e)
    ensures Descending([last] + recent) <==> Descending(recent)
  {
    var read := [last] + recent;
    forall i | 0 <= i < |recent| ensures recent[i].created < last.created && read[i + 1] == recent[i] {
      ReadIsLogged(history, recent, recent[i]);
      EarlierThanLast(history, last, recent[i]);
    }
  }

  lemma LatestOfOneMore(history: seq<Logged>, last: Logged, recent: seq<Logged>, limit: nat)
    requires Rising(history + [last]) && limit > 0
    ensures IsLatest(history + [last], [last] + recent, limit) <==> IsLatest(history, recent, limit - 1)
  {
    forall e ensures RowRead(history + [last], [last] + recent, e) <==> RowRead(history, recent, e) {
      RowOfOneMore(history, last, recent, e);
    }
    if forall e :: RowRead(history, recent, e) {
      DescendingOfOneMore(history, last, recent);
    }
  }

  lemma LatestStartsWithLast(history: seq<Logged>, recent: seq<Logged>, limit: nat)
    requires Rising(history) && history != [] && limit > 0 && IsLatest(history, recent, limit)
    ensures recent != [] && recent[0] == history[|history| - 1]
  {
    var last := history[|history| - 1];
    assert RowRead(history, recent, last) && last in multiset(history);
    assert last in multiset(recent) || AllSince(recent, last.created);
    assert recent[0].created >= last.created;
    ReadIsLogged(history, recent, recent[0]);
    RisingEnds(history, recent[0]);
  }

  lemma RisingEnds(history: seq<Logged>, e: Logged)
    requires Rising(history) && e in history
    ensures e == history[|history| - 1] || e.created < history[|history| - 1].created
  {
  }

  function Next(row: Row, step: Step, root: C.Root): Row {
    match step
    case Log(_) => row
    case Update(e, recent) => Updated(row, e, ConfidencesOf(recent), root)
    case Graduate => Graduated(row)
  }

  function Run(steps: seq<Step>, root: C.Root): Row {
    if steps == [] then FRESH else Next(Run(steps[..|steps| - 1], root), steps[|steps| - 1], root)
  }

  /** Which of the updates of a run were perfect, in order. */
  function Verdicts(steps: seq<Step>): seq<bool> {
    if steps == [] then []
    else
      var before := Verdicts(steps[..|steps| - 1]);
      match steps[|steps| - 1]
      case Update(e, _) => before + [IsPerfect(e)]
      case _ => before
  }

  /** One verdict for each update, whatever the other steps are. */
  lemma VerdictsOneMore(steps: seq<Step>, step: Step)
    ensures Verdicts(steps + [step]) ==
              Verdicts(steps)
              + if !step.Update? then []
                else
                  var e := step.execution;
                  [e.errors == 0 && e.confidence >= 95.0 && e.audit == Pass]
    ensures History(steps + [step]) == History(steps) + if step.Log? then [step.entry] else []
  {
    assert (steps + [step])[..|steps|] == steps;
  }

  /** The `n` last entries are true, and no more than that. */
  predicate TrailingRun(p: seq<bool>, n: nat) {
    && n <= |p|
    && (forall i | |p| - n <= i < |p| :: p[i])
    && (n < |p| ==> !p[|p| - n - 1])
  }

  predicate TenFrom(p: seq<bool>, start: nat) {
    start + 10 <= |p| && forall i | start <= i < start + 10 :: p[i]
  }

  predicate TenInARow(p: seq<bool>) {
    exists start: nat {:trigger TenFrom(p, start)} | start < |p| :: TenFrom(p, start)
  }

  /** The update reads five or more executions, whose confidences have a variance of at most 25. */
  predicate Steady(step: Step) {
    step.Update? && |step.recent| >= 5 && C.Variance(ConfidencesOf(step.recent)) <= 25.0
  }

  predicate EverSteady(steps: seq<Step>) {
    exists i {:trigger Steady(steps[i])} | 0 <= i < |steps| :: Steady(steps[i])
  }

  lemma {:induction false} StreakIsTrailingRun(steps: seq<Step>, root: C.Root)
    ensures TrailingRun(Verdicts(steps), Run(steps, root).streak)
  {
    if steps != [] {
      StreakIsTrailingRun(steps[..|steps| - 1], root);
    }
  }

  lemma TenAtTheEnd(p: seq<bool>, v: bool, n: nat)
    requires TrailingRun(p, n)
    ensures TenInARow(p + [v]) <==> TenInARow(p) || (v && n + 1 >= 10)
  {
    var q := p + [v];
    if v && n + 1 >= 10 {
      assert TenFrom(q, |q| - 10);
    }
    if TenInARow(p) {
      var start: nat :| start < |p| && TenFrom(p, start);
      assert TenFrom(q, start);
    }
    if TenInARow(q) {
      var start: nat :| start < |q| && TenFrom(q, start);
      if start + 10 <= |p| {
        assert TenFrom(p, start) by {
          forall i | start <= i < start + 10 ensures p[i] {
            assert q[i];
          }
        }
      } else {
        assert q[|p|] == v;
        assert n < |p| ==> q[|p| - n - 1] == p[|p| - n - 1];
      }
    }
  }

  /** The flag for L3 is set exactly when ten updates in a row were once perfect. */
  lemma {:induction false} ReadyForL3Exactly(steps: seq<Step>, root: C.Root)
    ensures Run(steps, root).ready3 <==> TenInARow(Verdicts(steps))
  {
    if steps != [] {
      var before := steps[..|steps| - 1];
      ReadyForL3Exactly(before, root);
      StreakIsTrailingRun(before, root);
      if steps[|steps| - 1].Update? {
        TenAtTheEnd(Verdicts(before), IsPerfect(steps[|steps| - 1].execution), Run(before, root).streak);
      }
    }
  }

  /** The flag for L4 is set exactly when, at some update, five or more executions were logged and the latest ten
      of them, or all, have confidences with a variance of at most 25. */
  lemma {:induction false} ReadyForL4Exactly(steps: seq<Step>, root: C.Root)
    requires C.TakesRoots(root) && Possible(steps)
    ensures Run(steps, root).ready4 <==> EverSteady(steps)
  {
    if steps != [] {
      var before, last := steps[..|steps| - 1], steps[|steps| - 1];
      PossibleBefore(steps);
      ReadyForL4Exactly(before, root);
      assert Allowed(steps[..|steps| - 1], last);
      SteadySetsFlag(before, last, root);
      EverSteadyOneMore(before, last);
      assert steps == before + [last];
    }
  }

  lemma SteadySetsFlag(before: seq<Step>, last: Step, root: C.Root)
    requires C.TakesRoots(root) && Possible(before) && Allowed(before, last)
    ensures Next(Run(before, root), last, root).ready4 <==> Run(before, root).ready4 || Steady(last)
  {
    if last.Update? && |last.recent| >= 5 {
      ReadConfidences(before, last.recent);
      ScoreBounds(ConfidencesOf(last.recent), root);
    }
  }

  lemma EverSteadyOneMore(before: seq<Step>, last: Step)
    ensures EverSteady(before + [last]) <==> EverSteady(before) || Steady(last)
  {
    var steps := before + [last];
    if EverSteady(before) {
      var i :| 0 <= i < |before| && Steady(before[i]);
      assert Steady(steps[i]);
    }
    if Steady(last) {
      assert Steady(steps[|before|]);
    }
    if EverSteady(steps) {
      var i :| 0 <= i < |steps| && Steady(steps[i]);
      if i < |before| {
        assert Steady(before[i]);
      }
    }
  }

  /** Every level up to the stored one was earned, and the last was not: nothing sets its flag. */
  lemma {:induction false} LevelIsEarned(steps: seq<Step>, root: C.Root)
    ensures var row := Run(steps, root);
            && !row.ready5
            && row.level != L5
            && (Rank(row.level) >= 1 ==> row.ready3)
            && (Rank(row.level) >= 2 ==> row.ready4)
            && Rank(row.level) <= Rank(Reported(row))
  {
    if steps != [] {
      LevelIsEarned(steps[..|steps| - 1], root);
    }
  }

  lemma LevelRisesOneStepOnItsFlag(row: Row, step: Step, root: C.Root)
    ensures var next := Next(row, step, root);
            && Rank(row.level) <= Rank(next.level) <= Rank(row.level) + 1
            && (next.level != row.level <==> step.Graduate? && Ready(row))
  {
  }

  /** Whatever follows a run, its level does not fall and its flags stay set. */
  lemma {:induction false} LevelNeverFalls(steps: seq<Step>, more: seq<Step>, root: C.Root)
    ensures Rank(Run(steps, root).level) <= Rank(Run(steps + more, root).level)
    ensures Run(steps, root).ready3 ==> Run(steps + more, root).ready3
    ensures Run(steps, root).ready4 ==> Run(steps + more, root).ready4
  {
    if more == [] {
      assert steps + more == steps;
    } else {
      LevelNeverFalls(steps, more[..|more| - 1], root);
      var all := steps + more;
      assert all[..|all| - 1] == steps + more[..|more| - 1];
      LevelRisesOneStepOnItsFlag(Run(all[..|all| - 1], root), all[|all| - 1], root);
    }
  }

  /** What the stored level and the reported level say about the history of a run: the stored level asks
      for ten perfect updates in a row before anything else, the reported one does not. */
  lemma LevelsOfARun(steps: seq<Step>, root: C.Root)
    requires C.TakesRoots(root) && Possible(steps)
    ensures var row := Run(steps, root);
            && (row.level == L3 ==> TenInARow(Verdicts(steps)))
            && (row.level == L4 ==> TenInARow(Verdicts(steps)) && EverSteady(steps))
            && (Reported(row) == L4 <==> EverSteady(steps))
            && (Reported(row) == L3 <==> TenInARow(Verdicts(steps)) && !EverSteady(steps))
            && Reported(row) != L5
  {
    LevelIsEarned(steps, root);
    ReadyForL3Exactly(steps, root);
    ReadyForL4Exactly(steps, root);
  }

  /** Two graduations in a row are enough to bring the stored level up to the reported one, exactly when
      the flag for L3 is set or neither flag is. */
  lemma TwoGraduationsCatchUp(steps: seq<Step>, root: C.Root)
    ensures var row := Run(steps, root);
            var after := Run(steps + [Graduate] + [Graduate], root);
            after.level == Reported(row) <==> (row.ready4 ==> row.ready3)
  {
    LevelIsEarned(steps, root);
    var once, twice := steps + [Graduate], steps + [Graduate] + [Graduate];
    assert once[..|once| - 1] == steps;
    assert twice[..|twice| - 1] == once;
  }

  /** `n` executions of equal confidence are logged, one a moment. */
  function EqualLogs(n: nat): seq<Step> {
    if n == 0 then [] else EqualLogs(n - 1) + [Log(Logged(50.0, n))]
  }

  lemma {:induction false} AfterEqualLogs(n: nat, root: C.Root)
    ensures |EqualLogs(n)| == n && Possible(EqualLogs(n))
    ensures Run(EqualLogs(n), root) == FRESH && Verdicts(EqualLogs(n)) == []
    ensures var h := History(EqualLogs(n)); |h| == n && forall i | 0 <= i < n :: h[i] == Logged(50.0, i + 1)
  {
    if n > 0 {
      AfterEqualLogs(n - 1, root);
      var steps, before := EqualLogs(n), EqualLogs(n - 1);
      assert steps[..n - 1] == before && steps[n - 1] == Log(Logged(50.0, n));
      OneMorePossible(before, steps[n - 1]);
    }
  }

  lemma OneMorePossible(before: seq<Step>, last: Step)
    requires Possible(before) && Allowed(before, last)
    ensures Possible(before + [last])
  {
    var steps := before + [last];
    forall i | 0 <= i < |steps| ensures Allowed(steps[..i], steps[i]) {
      if i < |before| {
        assert steps[..i] == before[..i] && Allowed(before[..i], before[i]);
      } else {
        assert steps[..i] == before;
      }
    }
  }

  /** Executions of equal confidence, and then one failed update. */
  function FailAfterLogs(n: nat): seq<Step> {
    EqualLogs(n) + [Update(Execution(1, 0.0, Fail), LastLogged(History(EqualLogs(n)), 10))]
  }

  lemma {:induction false} LastLoggedLength(history: seq<Logged>, limit: nat)
    ensures |LastLogged(history, limit)| == if |history| <= limit then |history| else limit
    decreases |history|
  {
    if history != [] && limit > 0 {
      LastLoggedLength(history[..|history| - 1], limit - 1);
    }
  }

  lemma EqualConfidences(recent: seq<Logged>, history: seq<Logged>)
    requires recent != [] && (forall e | e in recent :: e in history)
    requires forall i | 0 <= i < |history| :: history[i].confidence == 50.0
    ensures C.Variance(ConfidencesOf(recent)) == 0.0
  {
    forall i | 0 <= i < |recent| ensures recent[i].confidence == 50.0 {
      assert recent[i] in recent;
    }
    SteadyHistory(ConfidencesOf(recent));
  }

  lemma FailedUpdateIsSteady(n: nat, root: C.Root)
    requires n >= 5
    ensures |EqualLogs(n)| == n && Possible(FailAfterLogs(n)) && Steady(FailAfterLogs(n)[n])
  {
    var before, recent := EqualLogs(n), LastLogged(History(EqualLogs(n)), 10);
    AfterEqualLogs(n, root);
    LatestAreLastLogged(History(before), recent, 10);
    OneMorePossible(before, Update(Execution(1, 0.0, Fail), recent));
    LastLoggedLength(History(before), 10);
    EqualConfidences(recent, History(before));
  }

  /** One failed update over a steady history reports L4, and the stored level can then never move until
      ten updates in a row are perfect. */
  lemma ReportedLevelSkipsAhead(n: nat, root: C.Root)
    requires C.TakesRoots(root) && n >= 5
    ensures Possible(FailAfterLogs(n)) && Verdicts(FailAfterLogs(n)) == [false]
    ensures Reported(Run(FailAfterLogs(n), root)) == L4
    ensures Run(FailAfterLogs(n) + [Graduate], root).level == L2
  {
    var steps := FailAfterLogs(n);
    AfterEqualLogs(n, root);
    assert steps[..n] == EqualLogs(n);
    FailedUpdateIsSteady(n, root);
    assert EverSteady(steps);
    ReadyForL4Exactly(steps, root);
    assert Run(steps, root) == Next(FRESH, steps[n], root);
    assert (steps + [Graduate])[..n + 1] == steps;
  }

  lemma SteadyHistory(recent: seq<real>)
    requires recent != [] && C.Constant(recent, recent[0])
    ensures C.Variance(recent) == 0.0
  {
    C.ConstantMean(recent, recent[0]);
    C.ZeroDot(C.Deviations(recent, C.Mean(recent)));
  }

  // ----- the table of the metrics row -----

  /** The table holds at most one row. `AutonomyMetricsDB()` has no values before it is stored, so adding one to its
      counter raises; an imperfect update sets the counter, and the defaults are filled in as it is stored. */
  class MetricsTable {
    var row: AutonomyMetrics?

    constructor ()
      ensures row == null
    {
      row := null;
    }

    function Contents(): Option<Row>
      reads this, row
    {
      if row == null then None else Some(row.Contents())
    }

    /** `update_autonomy_metrics`, with the query for the row. */
    method Update(e: Execution, recent: seq<Logged>, root: C.Root) returns (raised: bool)
      modifies this, row
      ensures raised <==> old(row) == null && e.errors == 0 && e.confidence >= 95.0 && e.audit == Pass
      ensures raised ==> row == null
      ensures !raised ==> row != null
      ensures Contents() == TableNext(old(Contents()), Step.Update(e, recent), root)
      ensures old(row) != null ==> row == old(row)
    {
      raised := false;
      var metrics := row;
      if metrics == null {
        if IsPerfect(e) {
          return true;
        }
        metrics := new AutonomyMetrics();
      }
      metrics.Update(e, ConfidencesOf(recent), root);
      row := metrics;
    }
  }

  predicate Imperfect(step: Step) {
    step.Update? && !IsPerfect(step.execution)
  }

  function TableNext(row: Option<Row>, step: Step, root: C.Root): Option<Row> {
    match row
    case Some(r) => Some(Next(r, step, root))
    case None => if Imperfect(step) then Some(Next(FRESH, step, root)) else None
  }

  function TableRun(steps: seq<Step>, root: C.Root): Option<Row> {
    if steps == [] then None else TableNext(TableRun(steps[..|steps| - 1], root), steps[|steps| - 1], root)
  }

  /** The steps from the first imperfect update on. */
  function FromFirstImperfect(steps: seq<Step>): seq<Step> {
    if steps == [] then []
    else
      var before, last := FromFirstImperfect(steps[..|steps| - 1]), steps[|steps| - 1];
      if before == [] && !Imperfect(last) then [] else before + [last]
  }

  /** An update that is not perfect, whether it had errors, lacked confidence or did not pass its audit. */
  ghost predicate Fails(step: Step) {
    && step.Update?
    && (step.execution.errors != 0 || step.execution.confidence < 95.0 || step.execution.audit in {Conditional, Fail})
  }

  lemma {:induction false} FromFirstMeaning(steps: seq<Step>, k: nat)
    requires k < |steps| && Fails(steps[k]) && forall i | 0 <= i < k :: !Fails(steps[i])
    ensures FromFirstImperfect(steps) == steps[k..]
  {
    var before := steps[..|steps| - 1];
    if k < |before| {
      FromFirstMeaning(before, k);
      assert steps[k..] == before[k..] + [steps[|steps| - 1]];
    } else {
      NoneImperfect(before);
      assert steps[k..] == [steps[k]];
    }
  }

  lemma {:induction false} NoneImperfect(steps: seq<Step>)
    requires forall i | 0 <= i < |steps| :: !Fails(steps[i])
    ensures FromFirstImperfect(steps) == []
  {
    if steps != [] {
      NoneImperfect(steps[..|steps| - 1]);
      assert !Fails(steps[|steps| - 1]);
    }
  }

  /** From an empty table, updates leave no trace until one is imperfect: there is a row exactly when there was an
      imperfect update, and it is what the steps from the first one on make of a fresh row. */
  lemma {:induction false} TableStartsImperfect(steps: seq<Step>, root: C.Root)
    ensures FromFirstImperfect(steps) == [] <==> forall i | 0 <= i < |steps| :: !Fails(steps[i])
    ensures TableRun(steps, root) ==
              if FromFirstImperfect(steps) == [] then None else Some(Run(FromFirstImperfect(steps), root))
  {
    if steps != [] {
      var before, last := steps[..|steps| - 1], steps[|steps| - 1];
      TableStartsImperfect(before, root);
      assert forall i | 0 <= i < |before| :: steps[i] == before[i];
      assert Fails(last) <==> Imperfect(last);
      var rest := FromFirstImperfect(steps);
      if rest != [] {
        assert rest[..|rest| - 1] == FromFirstImperfect(before) && rest[|rest| - 1] == last;
      }
    }
  }

  /** So ten perfect updates in a row count for L3 only after an imperfect one. */
  lemma TableReadyForL3Exactly(steps: seq<Step>, root: C.Root)
    ensures TableRun(steps, root).Some? && TableRun(steps, root).value.ready3 <==>
            TenInARow(Verdicts(FromFirstImperfect(steps)))
  {
    TableStartsImperfect(steps, root);
    ReadyForL3Exactly(FromFirstImperfect(steps), root);
  }

  // ----- features -----

  datatype Feature =
    AdaptiveTodos | FailureRecovery | ArchitecturalReasoning | OptimizationSuggestions
    | AutonomousGoal | SelfHealing | Other(name: string)

  /** `feature_map`: a feature that is not listed asks for L2. */
  function RequiredLevel(feature: Feature): Level {
    match feature
    case AdaptiveTodos => L3
    case FailureRecovery => L3
    case ArchitecturalReasoning => L4
    case OptimizationSuggestions => L4
    case AutonomousGoal => L5
    case SelfHealing => L5
    case Other(_) => L2
  }

  /** `assert_capability` */
  method AssertCapability(metrics: AutonomyMetrics, feature: Feature) returns (enabled: bool)
    ensures enabled == (Rank(Reported(metrics.Contents())) >= Rank(RequiredLevel(feature)))
    ensures feature.AdaptiveTodos? || feature.FailureRecovery? ==>
              (enabled <==> metrics.ready3 || metrics.ready4 || metrics.ready5)
    ensures feature.ArchitecturalReasoning? || feature.OptimizationSuggestions? ==>
              (enabled <==> metrics.ready4 || metrics.ready5)
    ensures feature.AutonomousGoal? || feature.SelfHealing? ==> (enabled <==> metrics.ready5)
    ensures feature.Other? ==> enabled
  {
    var current := metrics.GetCurrentAutonomyLevel();
    enabled := Rank(current) >= Rank(RequiredLevel(feature));
  }

  /** In no run is a feature of L5 enabled, and those of L4 are exactly after a steady history. */
  lemma FeaturesOfARun(steps: seq<Step>, root: C.Root, feature: Feature)
    requires C.TakesRoots(root) && Possible(steps)
    ensures Rank(Reported(Run(steps, root))) >= Rank(RequiredLevel(feature)) <==>
            match feature
            case AdaptiveTodos => TenInARow(Verdicts(steps)) || EverSteady(steps)
            case FailureRecovery => TenInARow(Verdicts(steps)) || EverSteady(steps)
            case ArchitecturalReasoning => EverSteady(steps)
            case OptimizationSuggestions => EverSteady(steps)
            case AutonomousGoal => false
            case SelfHealing => false
            case Other(_) => true
  {
    LevelsOfARun(steps, root);
    ReadyForL3Exactly(steps, root);
    ReadyForL4Exactly(steps, root);
  }
}
