// The assignment groups of the older canvas_ore_gr copy: a plain drop window
// over the sorted assignment results (no Unknown bracketing) and -1 as the
// "no such group" answer.

module LegacyGroups {
  import opened Wrappers
  import opened RealSeqs
  import opened Associations
  import AssignmentGroupScoring

  /** An assignment of the group, by its Canvas id and its name. */
  datatype Assignment = Assignment(id: string, name: string)

  /**
   * What a group asks of its assignments: the points a student earns and the
   * maximum for an association (None for the whole assignment), and whether
   * the assignment's rubric has a criterion of a given name.
   */
  datatype Grading = Grading(points: (Assignment, Option<Selector>, string) -> real,
                             maximum: (Assignment, Option<Selector>) -> real,
                             hasCriterion: (Assignment, string) -> bool)

  /** One assignment group with its drop rules. */
  datatype Group = Group(id: string, name: string, dropLowest: int, dropHighest: int, assignments: seq<Assignment>)

  /** The first assignment at or after `from` with the name. */
  function FirstNamed(xs: seq<Assignment>, name: string, from: nat): (i: Option<nat>)
    requires from <= |xs|
    ensures i.Some? ==> from <= i.value < |xs| && xs[i.value].name == name
                        && forall j :: from <= j < i.value ==> xs[j].name != name
    ensures i.None? ==> forall j :: from <= j < |xs| ==> xs[j].name != name
    decreases |xs| - from
  {
    if from == |xs| then None
    else if xs[from].name == name then Some(from)
    else FirstNamed(xs, name, from + 1)
  }

  /** An association the group can answer: one naming an assignment names one the group has. */
  predicate Delegable(g: Group, oa: Selector)
  {
    oa.assignmentName.Some? ==> FirstNamed(g.assignments, oa.assignmentName.value, 0).Some?
  }

  /** The assignment an association names, as the delegation finds it: the first one with the name. */
  function NamedAssignment(g: Group, oa: Selector): (a: Assignment)
    requires oa.assignmentName.Some? && Delegable(g, oa)
    ensures a in g.assignments && a.name == oa.assignmentName.value
  {
    g.assignments[FirstNamed(g.assignments, oa.assignmentName.value, 0).value]
  }

  /** Each assignment's whole-assignment points for the student, in group order. */
  function WholePoints(gr: Grading, xs: seq<Assignment>, student: string): (r: seq<real>)
    ensures |r| == |xs|
  {
    if xs == [] then [] else WholePoints(gr, xs[..|xs| - 1], student) + [gr.points(xs[|xs| - 1], None, student)]
  }

  /** Each assignment's whole-assignment maximum, in group order. */
  function WholeMaxima(gr: Grading, xs: seq<Assignment>): (r: seq<real>)
    ensures |r| == |xs|
  {
    if xs == [] then [] else WholeMaxima(gr, xs[..|xs| - 1]) + [gr.maximum(xs[|xs| - 1], None)]
  }

  /**
   * getStudentOutcomePoints of a group: an association naming an assignment
   * is answered by that assignment; otherwise the whole-assignment points are
   * sorted ascending and summed over drop_lowest <= i < n - drop_highest.
   */
  function GroupPoints(gr: Grading, g: Group, oa: Selector, student: string): real
    requires Delegable(g, oa)
  {
    if oa.assignmentName.Some? then gr.points(NamedAssignment(g, oa), Some(oa), student)
    else WindowSum(SortAsc(WholePoints(gr, g.assignments, student)), g.dropLowest, g.dropHighest)
  }

  /** getMaximumOutcomePoints of a group: the same rule on the assignment maxima. */
  function GroupMaximum(gr: Grading, g: Group, oa: Selector): real
    requires Delegable(g, oa)
  {
    if oa.assignmentName.Some? then gr.maximum(NamedAssignment(g, oa), Some(oa))
    else WindowSum(SortAsc(WholeMaxima(gr, g.assignments)), g.dropLowest, g.dropHighest)
  }

  /** contains of a group: decided by the first assignment with the name. */
  function GroupContains(gr: Grading, g: Group, assignmentName: string, criterion: Option<string>): (r: bool)
    ensures r <==> exists i :: 0 <= i < |g.assignments| && g.assignments[i].name == assignmentName
                    && (forall j :: 0 <= j < i ==> g.assignments[j].name != assignmentName)
                    && (criterion.None? || gr.hasCriterion(g.assignments[i], criterion.value))
  {
    match FirstNamed(g.assignments, assignmentName, 0)
    case None => false
    case Some(i) => criterion.None? || gr.hasCriterion(g.assignments[i], criterion.value)
  }

  /** The delegation's lookup: the index of the first assignment with the name. */
  method IndexNamed(xs: seq<Assignment>, name: string) returns (index: nat)
    requires FirstNamed(xs, name, 0).Some?
    ensures index == FirstNamed(xs, name, 0).value
  {
    index := 0;
    while xs[index].name != name
      invariant index <= FirstNamed(xs, name, 0).value
      invariant FirstNamed(xs, name, index) == FirstNamed(xs, name, 0)
      decreases |xs| - index
    {
      index := index + 1;
    }
  }

  /** The loop that lists each assignment's whole-assignment points. */
  method ListPoints(gr: Grading, xs: seq<Assignment>, student: string) returns (results: seq<real>)
    ensures results == WholePoints(gr, xs, student)
  {
    results := [];
    var i := 0;
    while i < |xs|
      invariant 0 <= i <= |xs|
      invariant results == WholePoints(gr, xs[..i], student)
    {
      assert xs[..i + 1][..i] == xs[..i];
      results := results + [gr.points(xs[i], None, student)];
      i := i + 1;
    }
    assert xs[..i] == xs;
  }

  /** The loop that lists each assignment's whole-assignment maximum. */
  method ListMaxima(gr: Grading, xs: seq<Assignment>) returns (results: seq<real>)
    ensures results == WholeMaxima(gr, xs)
  {
    results := [];
    var i := 0;
    while i < |xs|
      invariant 0 <= i <= |xs|
      invariant results == WholeMaxima(gr, xs[..i])
    {
      assert xs[..i + 1][..i] == xs[..i];
      results := results + [gr.maximum(xs[i], None)];
      i := i + 1;
    }
    assert xs[..i] == xs;
  }

  /** getStudentOutcomePoints of a group. */
  method StudentOutcomePoints(gr: Grading, g: Group, oa: Selector, student: string) returns (points: real)
    requires Delegable(g, oa)
    ensures points == GroupPoints(gr, g, oa, student)
  {
    if oa.assignmentName.Some? {
      var i := IndexNamed(g.assignments, oa.assignmentName.value);
      return gr.points(g.assignments[i], Some(oa), student);
    }
    var results := ListPoints(gr, g.assignments, student);
    results := SortAsc(results);
    points := AssignmentGroupScoring.WindowedSum(results, g.dropLowest, g.dropHighest);
  }

  /** getMaximumOutcomePoints of a group. */
  method MaximumOutcomePoints(gr: Grading, g: Group, oa: Selector) returns (points: real)
    requires Delegable(g, oa)
    ensures points == GroupMaximum(gr, g, oa)
  {
    if oa.assignmentName.Some? {
      var i := IndexNamed(g.assignments, oa.assignmentName.value);
      return gr.maximum(g.assignments[i], Some(oa));
    }
    var results := ListMaxima(gr, g.assignments);
    results := SortAsc(results);
    points := AssignmentGroupScoring.WindowedSum(results, g.dropLowest, g.dropHighest);
  }

  /** contains of a group: the first assignment with the name decides. */
  method Contains(gr: Grading, g: Group, assignmentName: string, criterion: Option<string>) returns (r: bool)
    ensures r == GroupContains(gr, g, assignmentName, criterion)
  {
    var i := 0;
    while i < |g.assignments|
      invariant 0 <= i <= |g.assignments|
      invariant FirstNamed(g.assignments, assignmentName, i) == FirstNamed(g.assignments, assignmentName, 0)
    {
      if g.assignments[i].name == assignmentName {
        if criterion.None? {
          return true;
        }
        return gr.hasCriterion(g.assignments[i], criterion.value);
      }
      i := i + 1;
    }
    return false;
  }

  /** Without drop rules a group's points are the plain sum of its assignments' points. */
  lemma NoDropsPlainSum(gr: Grading, g: Group, oa: Selector, student: string)
    requires oa.assignmentName.None? && g.dropLowest <= 0 && g.dropHighest <= 0
    ensures GroupPoints(gr, g, oa, student) == Sum(WholePoints(gr, g.assignments, student))
  {
    var s := WholePoints(gr, g.assignments, student);
    WindowSumAll(SortAsc(s), g.dropLowest, g.dropHighest);
    SumSortAsc(s);
  }

  /** Dropping at least as many assignments as the group has leaves 0 points and a 0 maximum. */
  lemma AllDroppedZero(gr: Grading, g: Group, oa: Selector, student: string)
    requires oa.assignmentName.None? && g.dropLowest + g.dropHighest >= |g.assignments|
    ensures GroupPoints(gr, g, oa, student) == 0.0 && GroupMaximum(gr, g, oa) == 0.0
  {
    WindowSumEmpty(SortAsc(WholePoints(gr, g.assignments, student)), g.dropLowest, g.dropHighest);
    WindowSumEmpty(SortAsc(WholeMaxima(gr, g.assignments)), g.dropLowest, g.dropHighest);
  }

  lemma {:induction false} WholeAtMostMaxima(gr: Grading, xs: seq<Assignment>, student: string)
    requires forall a :: a in xs ==> gr.points(a, None, student) <= gr.maximum(a, None)
    ensures PointwiseLe(WholePoints(gr, xs, student), WholeMaxima(gr, xs))
  {
    if xs != [] {
      WholeAtMostMaxima(gr, xs[..|xs| - 1], student);
      assert xs[|xs| - 1] in xs;
    }
  }

  /**
   * When no assignment awards more than its maximum, a group's points stay
   * within its maximum: the two lists are sorted and cut separately, but the
   * k-th smallest score never exceeds the k-th smallest maximum.
   */
  lemma PointsWithinMaximum(gr: Grading, g: Group, oa: Selector, student: string)
    requires oa.assignmentName.None?
    requires forall a :: a in g.assignments ==> gr.points(a, None, student) <= gr.maximum(a, None)
    ensures GroupPoints(gr, g, oa, student) <= GroupMaximum(gr, g, oa)
  {
    var ps, ms := WholePoints(gr, g.assignments, student), WholeMaxima(gr, g.assignments);
    WholeAtMostMaxima(gr, g.assignments, student);
    SortAscMonotone(ps, ms);
    WindowSumMonotone(SortAsc(ps), SortAsc(ms), g.dropLowest, g.dropHighest);
  }

  // ---- The groups of a course (AssignmentGroups) ----

  /** The first group at or after `from` with the name. */
  function FromName(groups: seq<Group>, name: string, from: nat): (i: Option<nat>)
    requires from <= |groups|
    ensures i.Some? ==> from <= i.value < |groups| && groups[i.value].name == name
                        && forall j :: from <= j < i.value ==> groups[j].name != name
    ensures i.None? ==> forall j :: from <= j < |groups| ==> groups[j].name != name
    decreases |groups| - from
  {
    if from == |groups| then None
    else if groups[from].name == name then Some(from)
    else FromName(groups, name, from + 1)
  }

  /** getFromName: the first group with the name, or null. */
  method GetFromName(groups: seq<Group>, name: string) returns (g: Option<Group>)
    ensures g.Some? <==> FromName(groups, name, 0).Some?
    ensures g.Some? ==> g.value == groups[FromName(groups, name, 0).value]
  {
    var i := 0;
    while i < |groups|
      invariant 0 <= i <= |groups|
      invariant FromName(groups, name, i) == FromName(groups, name, 0)
    {
      if groups[i].name == name {
        return Some(groups[i]);
      }
      i := i + 1;
    }
    return None;
  }

  /** An association whose group, when there is one, can answer it. */
  predicate Answerable(groups: seq<Group>, oa: Selector)
  {
    FromName(groups, oa.groupName, 0).Some? ==> Delegable(groups[FromName(groups, oa.groupName, 0).value], oa)
  }

  /** getStudentAssignmentPoints: -1 when no group has the association's group name, else that group's points. */
  function AssignmentPoints(gr: Grading, groups: seq<Group>, oa: Selector, student: string): real
    requires Answerable(groups, oa)
  {
    match FromName(groups, oa.groupName, 0)
    case None => -1.0
    case Some(i) => GroupPoints(gr, groups[i], oa, student)
  }

  /**
   * getStudentAssignmentPercent: -1 for a missing group, 0 when the maximum
   * is 0, else the group's points over its maximum.
   */
  function AssignmentPercent(gr: Grading, groups: seq<Group>, oa: Selector, student: string): real
    requires Answerable(groups, oa)
  {
    match FromName(groups, oa.groupName, 0)
    case None => -1.0
    case Some(i) =>
      var max := GroupMaximum(gr, groups[i], oa);
      if max == 0.0 then 0.0 else GroupPoints(gr, groups[i], oa, student) / max
  }

  method StudentAssignmentPoints(gr: Grading, groups: seq<Group>, oa: Selector, student: string) returns (points: real)
    requires Answerable(groups, oa)
    ensures points == AssignmentPoints(gr, groups, oa, student)
  {
    var g := GetFromName(groups, oa.groupName);
    if g.None? {
      return -1.0;
    }
    points := StudentOutcomePoints(gr, g.value, oa, student);
  }

  method StudentAssignmentPercent(gr: Grading, groups: seq<Group>, oa: Selector, student: string) returns (percent: real)
    requires Answerable(groups, oa)
    ensures percent == AssignmentPercent(gr, groups, oa, student)
  {
    var g := GetFromName(groups, oa.groupName);
    if g.None? {
      return -1.0;
    }
    var max := MaximumOutcomePoints(gr, g.value, oa);
    if max == 0.0 {
      return 0.0;
    }
    var points := StudentOutcomePoints(gr, g.value, oa, student);
    percent := points / max;
  }

  /** The -1 answer marks a missing group, for points and percent alike. */
  lemma MissingGroupSentinel(gr: Grading, groups: seq<Group>, oa: Selector, student: string)
    requires forall j :: 0 <= j < |groups| ==> groups[j].name != oa.groupName
    ensures AssignmentPoints(gr, groups, oa, student) == -1.0
    ensures AssignmentPercent(gr, groups, oa, student) == -1.0
  {
    assert FromName(groups, oa.groupName, 0).None?;
  }

  /** With the group found, the percent is the points over the maximum, or 0 for a zero maximum. */
  lemma PercentFromPoints(gr: Grading, groups: seq<Group>, oa: Selector, student: string)
    requires Answerable(groups, oa) && FromName(groups, oa.groupName, 0).Some?
    ensures var g := groups[FromName(groups, oa.groupName, 0).value];
      AssignmentPercent(gr, groups, oa, student) ==
        if GroupMaximum(gr, g, oa) == 0.0 then 0.0
        else AssignmentPoints(gr, groups, oa, student) / GroupMaximum(gr, g, oa)
  {
  }

  /** Every (group, association) pair with equal names can be answered. */
  predicate PairsDelegable(groups: seq<Group>, assocs: seq<Selector>)
  {
    forall i, j :: 0 <= i < |groups| && 0 <= j < |assocs| && groups[i].name == assocs[j].groupName ==>
      Delegable(groups[i], assocs[j])
  }

  /** The points of the first m associations that name group g. */
  function GroupTerm(gr: Grading, g: Group, assocs: seq<Selector>, student: string, m: nat): real
    requires m <= |assocs|
    requires forall j :: 0 <= j < |assocs| && g.name == assocs[j].groupName ==> Delegable(g, assocs[j])
  {
    if m == 0 then 0.0
    else GroupTerm(gr, g, assocs, student, m - 1)
         + (if g.name == assocs[m - 1].groupName then GroupPoints(gr, g, assocs[m - 1], student) else 0.0)
  }

  /** The maxima of the first m associations that name group g. */
  function GroupMaxTerm(gr: Grading, g: Group, assocs: seq<Selector>, m: nat): real
    requires m <= |assocs|
    requires forall j :: 0 <= j < |assocs| && g.name == assocs[j].groupName ==> Delegable(g, assocs[j])
  {
    if m == 0 then 0.0
    else GroupMaxTerm(gr, g, assocs, m - 1)
         + (if g.name == assocs[m - 1].groupName then GroupMaximum(gr, g, assocs[m - 1]) else 0.0)
  }

  /** getStudentOutcomePoints over the first n groups: every matching (group, association) pair. */
  function OutcomePoints(gr: Grading, groups: seq<Group>, assocs: seq<Selector>, student: string, n: nat): real
    requires n <= |groups| && PairsDelegable(groups, assocs)
  {
    if n == 0 then 0.0 else OutcomePoints(gr, groups, assocs, student, n - 1) + GroupTerm(gr, groups[n - 1], assocs, student, |assocs|)
  }

  /** getMaximumOutcomePoints over the first n groups. */
  function OutcomeMaximum(gr: Grading, groups: seq<Group>, assocs: seq<Selector>, n: nat): real
    requires n <= |groups| && PairsDelegable(groups, assocs)
  {
    if n == 0 then 0.0 else OutcomeMaximum(gr, groups, assocs, n - 1) + GroupMaxTerm(gr, groups[n - 1], assocs, |assocs|)
  }

  method StudentOutcomeTotal(gr: Grading, groups: seq<Group>, assocs: seq<Selector>, student: string) returns (total: real)
    requires PairsDelegable(groups, assocs)
    ensures total == OutcomePoints(gr, groups, assocs, student, |groups|)
  {
    total := 0.0;
    var i := 0;
    while i < |groups|
      invariant 0 <= i <= |groups|
      invariant total == OutcomePoints(gr, groups, assocs, student, i)
    {
      var term := GroupOutcomePoints(gr, groups[i], assocs, student);
      total := total + term;
      i := i + 1;
    }
  }

  /** The inner loop of getStudentOutcomePoints: one group against every association. */
  method GroupOutcomePoints(gr: Grading, g: Group, assocs: seq<Selector>, student: string) returns (term: real)
    requires forall j :: 0 <= j < |assocs| && g.name == assocs[j].groupName ==> Delegable(g, assocs[j])
    ensures term == GroupTerm(gr, g, assocs, student, |assocs|)
  {
    term := 0.0;
    var j := 0;
    while j < |assocs|
      invariant 0 <= j <= |assocs|
      invariant term == GroupTerm(gr, g, assocs, student, j)
    {
      if g.name == assocs[j].groupName {
        var p := StudentOutcomePoints(gr, g, assocs[j], student);
        term := term + p;
      }
      j := j + 1;
    }
  }

  method MaximumOutcomeTotal(gr: Grading, groups: seq<Group>, assocs: seq<Selector>) returns (total: real)
    requires PairsDelegable(groups, assocs)
    ensures total == OutcomeMaximum(gr, groups, assocs, |groups|)
  {
    total := 0.0;
    var i := 0;
    while i < |groups|
      invariant 0 <= i <= |groups|
      invariant total == OutcomeMaximum(gr, groups, assocs, i)
    {
      var term := GroupOutcomeMaximum(gr, groups[i], assocs);
      total := total + term;
      i := i + 1;
    }
  }

  /** The inner loop of getMaximumOutcomePoints. */
  method GroupOutcomeMaximum(gr: Grading, g: Group, assocs: seq<Selector>) returns (term: real)
    requires forall j :: 0 <= j < |assocs| && g.name == assocs[j].groupName ==> Delegable(g, assocs[j])
    ensures term == GroupMaxTerm(gr, g, assocs, |assocs|)
  {
    term := 0.0;
    var j := 0;
    while j < |assocs|
      invariant 0 <= j <= |assocs|
      invariant term == GroupMaxTerm(gr, g, assocs, j)
    {
      if g.name == assocs[j].groupName {
        var p := MaximumOutcomePoints(gr, g, assocs[j]);
        term := term + p;
      }
      j := j + 1;
    }
  }

  /** Associations that name no group add nothing: with no matching pair the totals are 0. */
  lemma {:induction false} NoPairsZero(gr: Grading, groups: seq<Group>, assocs: seq<Selector>, student: string, n: nat)
    requires n <= |groups| && PairsDelegable(groups, assocs)
    requires forall i, j :: 0 <= i < |groups| && 0 <= j < |assocs| ==> groups[i].name != assocs[j].groupName
    ensures OutcomePoints(gr, groups, assocs, student, n) == 0.0
    ensures OutcomeMaximum(gr, groups, assocs, n) == 0.0
  {
    if n > 0 {
      NoPairsZero(gr, groups, assocs, student, n - 1);
      NoMatchTermZero(gr, groups[n - 1], assocs, student, |assocs|);
    }
  }

  lemma {:induction false} NoMatchTermZero(gr: Grading, g: Group, assocs: seq<Selector>, student: string, m: nat)
    requires m <= |assocs|
    requires forall j :: 0 <= j < |assocs| ==> g.name != assocs[j].groupName
    ensures GroupTerm(gr, g, assocs, student, m) == 0.0 && GroupMaxTerm(gr, g, assocs, m) == 0.0
  {
    if m > 0 {
      NoMatchTermZero(gr, g, assocs, student, m - 1);
    }
  }

  // ---- getStudentAverageOutcomePercent ----

  /** One pair's contribution: its points/max and a count of 1, or nothing when its maximum is 0. */
  function PairPercent(gr: Grading, g: Group, oa: Selector, student: string): (real, real)
    requires Delegable(g, oa)
  {
    var max := GroupMaximum(gr, g, oa);
    if max != 0.0 then (GroupPoints(gr, g, oa, student) / max, 1.0) else (0.0, 0.0)
  }

  /** percent_sum and count over the first m associations that name group g. */
  function GroupPercents(gr: Grading, g: Group, assocs: seq<Selector>, student: string, m: nat): (real, real)
    requires m <= |assocs|
    requires forall j :: 0 <= j < |assocs| && g.name == assocs[j].groupName ==> Delegable(g, assocs[j])
  {
    if m == 0 then (0.0, 0.0)
    else
      var before := GroupPercents(gr, g, assocs, student, m - 1);
      if g.name == assocs[m - 1].groupName then
        var p := PairPercent(gr, g, assocs[m - 1], student);
        (before.0 + p.0, before.1 + p.1)
      else before
  }

  /** percent_sum and count over the first n groups. */
  function Percents(gr: Grading, groups: seq<Group>, assocs: seq<Selector>, student: string, n: nat): (real, real)
    requires n <= |groups| && PairsDelegable(groups, assocs)
  {
    if n == 0 then (0.0, 0.0)
    else
      var before := Percents(gr, groups, assocs, student, n - 1);
      var term := GroupPercents(gr, groups[n - 1], assocs, student, |assocs|);
      (before.0 + term.0, before.1 + term.1)
  }

  /** getStudentAverageOutcomePercent: the mean of points/max over matching pairs with max != 0, or 0 with none. */
  function AveragePercent(gr: Grading, groups: seq<Group>, assocs: seq<Selector>, student: string): real
    requires PairsDelegable(groups, assocs)
  {
    var (sum, count) := Percents(gr, groups, assocs, student, |groups|);
    if count != 0.0 then sum / count else 0.0
  }

  method StudentAverageOutcomePercent(gr: Grading, groups: seq<Group>, assocs: seq<Selector>, student: string)
    returns (average: real)
    requires PairsDelegable(groups, assocs)
    ensures average == AveragePercent(gr, groups, assocs, student)
  {
    var percentSum, count := 0.0, 0.0;
    var i := 0;
    while i < |groups|
      invariant 0 <= i <= |groups|
      invariant (percentSum, count) == Percents(gr, groups, assocs, student, i)
    {
      var s, c := GroupAveragePercents(gr, groups[i], assocs, student);
      percentSum, count := percentSum + s, count + c;
      i := i + 1;
    }
    if count != 0.0 {
      return percentSum / count;
    }
    return 0.0;
  }

  /** The inner loop of getStudentAverageOutcomePercent. */
  method GroupAveragePercents(gr: Grading, g: Group, assocs: seq<Selector>, student: string) returns (sum: real, count: real)
    requires forall j :: 0 <= j < |assocs| && g.name == assocs[j].groupName ==> Delegable(g, assocs[j])
    ensures (sum, count) == GroupPercents(gr, g, assocs, student, |assocs|)
  {
    sum, count := 0.0, 0.0;
    var j := 0;
    while j < |assocs|
      invariant 0 <= j <= |assocs|
      invariant (sum, count) == GroupPercents(gr, g, assocs, student, j)
    {
      if g.name == assocs[j].groupName {
        var points := StudentOutcomePoints(gr, g, assocs[j], student);
        var max := MaximumOutcomePoints(gr, g, assocs[j]);
        if max != 0.0 {
          sum, count := sum + points / max, count + 1.0;
        }
      }
      j := j + 1;
    }
  }

  /** Every matching pair scores within [0, max] of a positive or zero maximum. */
  predicate PairsBounded(gr: Grading, groups: seq<Group>, assocs: seq<Selector>, student: string)
    requires PairsDelegable(groups, assocs)
  {
    forall i, j :: 0 <= i < |groups| && 0 <= j < |assocs| && groups[i].name == assocs[j].groupName ==>
      0.0 <= GroupPoints(gr, groups[i], assocs[j], student) <= GroupMaximum(gr, groups[i], assocs[j])
  }

  lemma {:induction false} GroupPercentsBounded(gr: Grading, groups: seq<Group>, assocs: seq<Selector>, student: string, i: nat, m: nat)
    requires i < |groups| && m <= |assocs| && PairsDelegable(groups, assocs) && PairsBounded(gr, groups, assocs, student)
    ensures var (s, c) := GroupPercents(gr, groups[i], assocs, student, m); 0.0 <= s <= c
  {
    if m > 0 {
      GroupPercentsBounded(gr, groups, assocs, student, i, m - 1);
      var g, oa := groups[i], assocs[m - 1];
      if g.name == oa.groupName {
        var max := GroupMaximum(gr, g, oa);
        if max != 0.0 {
          var p := GroupPoints(gr, g, oa, student);
          assert 0.0 <= p <= max;
          DivideAtMostOne(p, max);
        }
      }
    }
  }

  lemma DivideAtMostOne(p: real, max: real)
    requires 0.0 <= p <= max && max != 0.0
    ensures 0.0 <= p / max <= 1.0
  {
  }

  lemma {:induction false} PercentsBounded(gr: Grading, groups: seq<Group>, assocs: seq<Selector>, student: string, n: nat)
    requires n <= |groups| && PairsDelegable(groups, assocs) && PairsBounded(gr, groups, assocs, student)
    ensures var (s, c) := Percents(gr, groups, assocs, student, n); 0.0 <= s <= c
  {
    if n > 0 {
      PercentsBounded(gr, groups, assocs, student, n - 1);
      GroupPercentsBounded(gr, groups, assocs, student, n - 1, |assocs|);
    }
  }

  /** When every matching pair scores within its maximum, the average percent lies in [0, 1]. */
  lemma AveragePercentBounds(gr: Grading, groups: seq<Group>, assocs: seq<Selector>, student: string)
    requires PairsDelegable(groups, assocs) && PairsBounded(gr, groups, assocs, student)
    ensures 0.0 <= AveragePercent(gr, groups, assocs, student) <= 1.0
  {
    PercentsBounded(gr, groups, assocs, student, |groups|);
    var (s, c) := Percents(gr, groups, assocs, student, |groups|);
    if c != 0.0 {
      DivideAtMostOne(s, c);
    }
  }

  /** The value loadGrades accumulates over the first n group answers: true, OR-ed with each. */
  function LoadedOr(answers: seq<bool>, n: nat): bool
    requires n <= |answers|
  {
    if n == 0 then true else LoadedOr(answers, n - 1) || answers[n - 1]
  }

  /** Starting from true, the OR never becomes false. */
  lemma {:induction false} LoadedOrAlwaysTrue(answers: seq<bool>, n: nat)
    requires n <= |answers|
    ensures LoadedOr(answers, n)
  {
    if n > 0 {
      LoadedOrAlwaysTrue(answers, n - 1);
    }
  }

  /** The value the documented "true on success, otherwise false" calls for: true AND-ed with each answer. */
  function LoadedAnd(answers: seq<bool>, n: nat): bool
    requires n <= |answers|
  {
    if n == 0 then true else LoadedAnd(answers, n - 1) && answers[n - 1]
  }

  /** The AND is true exactly when every one of the first n groups loaded. */
  lemma {:induction false} LoadedAndAll(answers: seq<bool>, n: nat)
    requires n <= |answers|
    ensures LoadedAnd(answers, n) <==> forall i :: 0 <= i < n ==> answers[i]
  {
    if n > 0 {
      LoadedAndAll(answers, n - 1);
    }
  }

  /** One group that fails to load: loadGrades still answers true, where success of all was meant. */
  lemma LoadGradesIgnoresFailure()
    ensures LoadedOr([false], 1) && !LoadedAnd([false], 1)
  {
  }

  /**
   * loadGrades as written: every group is asked to load (its answer given here
   * in group order); the result starts true and is only OR-ed, so it is true
   * even when a group fails.
   */
  method LoadGrades(groupResults: seq<bool>) returns (result: bool)
    ensures result == LoadedOr(groupResults, |groupResults|)
    ensures result
  {
    result := true;
    var i := 0;
    while i < |groupResults|
      invariant 0 <= i <= |groupResults|
      invariant result == LoadedOr(groupResults, i)
    {
      var loaded := groupResults[i];
      result := result || loaded;
      i := i + 1;
    }
    LoadedOrAlwaysTrue(groupResults, |groupResults|);
  }

  /** loadGrades as documented: true exactly when every group loaded. */
  method LoadAllGrades(groupResults: seq<bool>) returns (result: bool)
    ensures result <==> forall i :: 0 <= i < |groupResults| ==> groupResults[i]
  {
    result := true;
    var i := 0;
    while i < |groupResults|
      invariant 0 <= i <= |groupResults|
      invariant result == LoadedAnd(groupResults, i)
    {
      var loaded := groupResults[i];
      result := result && loaded;
      i := i + 1;
    }
    LoadedAndAll(groupResults, |groupResults|);
  }

  /** contains of the groups: false without a group of that name, true with no assignment name, else the first such group decides. */
  function GroupsContain(gr: Grading, groups: seq<Group>, groupName: string, assignmentName: Option<string>,
                         criterion: Option<string>): (r: bool)
    ensures FromName(groups, groupName, 0).None? ==> !r
    ensures FromName(groups, groupName, 0).Some? && assignmentName.None? ==> r
    ensures assignmentName.Some? ==>
              (r <==> exists i :: 0 <= i < |groups| && groups[i].name == groupName
                                  && (forall j :: 0 <= j < i ==> groups[j].name != groupName)
                                  && GroupContains(gr, groups[i], assignmentName.value, criterion))
  {
    match FromName(groups, groupName, 0)
    case None => false
    case Some(i) => assignmentName.None? || GroupContains(gr, groups[i], assignmentName.value, criterion)
  }

  method ContainsIn(gr: Grading, groups: seq<Group>, groupName: string, assignmentName: Option<string>,
                    criterion: Option<string>) returns (r: bool)
    ensures r == GroupsContain(gr, groups, groupName, assignmentName, criterion)
  {
    var i := 0;
    while i < |groups|
      invariant 0 <= i <= |groups|
      invariant FromName(groups, groupName, i) == FromName(groups, groupName, 0)
    {
      if groups[i].name == groupName {
        if assignmentName.None? {
          return true;
        }
        r := Contains(gr, groups[i], assignmentName.value, criterion);
        return;
      }
      i := i + 1;
    }
    return false;
  }
}
