/**
 * An assignment group: the points a student earns toward an outcome from a whole
 * group, after the group's drop-lowest and drop-highest rules, with ungraded
 * assignments bracketed between a worst case (0) and a best case (full marks) and
 * the 0.70 rule deciding whether the result is known.
 */
module AssignmentGroupScoring {
  import opened Wrappers
  import opened Scores
  import opened Associations
  import opened RealSeqs
  import opened Assignments

  /** The objects whose state the scores of a list of assignments depend on. */
  function Footprint(xs: seq<Assignment>): set<object>
  {
    Items(xs) + (set a | a in xs :: a.rubric as object)
    + (set a, g | a in xs && g in a.questionGroups :: g as object)
  }

  /** Every assignment of the list, its rubric and its question groups are in the footprint. */
  lemma FootprintHas(xs: seq<Assignment>, a: Assignment)
    requires a in xs
    ensures a in Footprint(xs) && a.rubric in Footprint(xs)
    ensures forall g :: g in a.questionGroups ==> g in Footprint(xs)
  {
  }

  /** Everything in the footprint of allocated assignments is allocated. */
  lemma FootprintAllocated(xs: seq<Assignment>)
    ensures forall o :: o in Footprint(xs) ==> allocated(o)
  {
  }

  /** The assignments of a list, as the objects holding their grades. */
  function Items(xs: seq<Assignment>): set<Assignment>
  {
    set a | a in xs
  }

  /** The worst-case list over the first n assignments: an unknown score counts 0. */
  function WorstCase(xs: seq<Assignment>, student: string, n: nat): (r: seq<real>)
    requires n <= |xs|
    reads xs
    ensures |r| == n
    ensures forall i :: 0 <= i < n ==> r[i] == if xs[i].Grade(student).Unknown? then 0.0 else xs[i].Grade(student).r
  {
    if n == 0 then []
    else
      var s := xs[n - 1].Grade(student);
      WorstCase(xs, student, n - 1) + [if s.Unknown? then 0.0 else s.r]
  }

  /** The best-case list over the first n assignments: an unknown score counts full marks. */
  function BestCase(xs: seq<Assignment>, student: string, n: nat): (r: seq<real>)
    requires n <= |xs|
    reads xs
    ensures |r| == n
    ensures forall i :: 0 <= i < n ==> r[i] == if xs[i].Grade(student).Unknown? then xs[i].pointsPossible else xs[i].Grade(student).r
  {
    if n == 0 then []
    else
      var s := xs[n - 1].Grade(student);
      BestCase(xs, student, n - 1) + [if s.Unknown? then xs[n - 1].pointsPossible else s.r]
  }

  /** The whole-assignment maxima of the first n assignments. */
  function Maxima(xs: seq<Assignment>, n: nat): (r: seq<real>)
    requires n <= |xs|
    ensures |r| == n
    ensures forall i :: 0 <= i < n ==> r[i] == xs[i].MaximumOutcomePoints(None)
  {
    if n == 0 then [] else Maxima(xs, n - 1) + [xs[n - 1].MaximumOutcomePoints(None)]
  }

  /**
   * Item i of the two lists: an assignment with an unknown score enters the worst case as 0 and
   * the best case as its points possible; a known score enters both unchanged.
   */
  lemma {:induction false} Bracket(xs: seq<Assignment>, student: string, n: nat, i: nat)
    requires i < n <= |xs|
    ensures var s := xs[i].Grade(student);
            (s.Unknown? ==> WorstCase(xs, student, n)[i] == 0.0 && BestCase(xs, student, n)[i] == xs[i].pointsPossible)
            && (s.Known? ==> WorstCase(xs, student, n)[i] == s.r && BestCase(xs, student, n)[i] == s.r)
  {
    if i < n - 1 {
      Bracket(xs, student, n - 1, i);
    }
  }

  /** The 0.70 rule: the worst case when it already reaches 70%, or when even the best case stays below. */
  function Decide(pointsMin: real, pointsMax: real, maxPossible: real): (r: Score)
    ensures r.Known? ==> r.r == pointsMin
    ensures r.Known? <==> AtLeast(Divide(Known(pointsMin), maxPossible), 0.70)
                          || Below(Divide(Known(pointsMax), maxPossible), 0.70)
  {
    if AtLeast(Divide(Known(pointsMin), maxPossible), 0.70) then Known(pointsMin)
    else if Below(Divide(Known(pointsMax), maxPossible), 0.70) then Known(pointsMin)
    else Unknown
  }

  /** With a zero maximum both quotients are NaN or infinite, and a zero worst case is never decided. */
  lemma ZeroMaximumZeroPointsUnknown(pointsMax: real)
    requires pointsMax >= 0.0
    ensures Decide(0.0, pointsMax, 0.0) == Unknown
  {
  }

  /** Sum of s over the window lo <= i < |s| - hi, as the group's summing loops compute it. */
  method WindowedSum(s: seq<real>, lo: int, hi: int) returns (sum: real)
    ensures sum == WindowSum(s, lo, hi)
  {
    sum := 0.0;
    var i := 0;
    while i < |s|
      invariant 0 <= i <= |s|
      invariant sum == WindowPrefixSum(s, lo, hi, i)
    {
      if i >= lo && i < |s| - hi {
        sum := sum + s[i];
      }
      i := i + 1;
    }
  }

  /** The loop of getStudentOutcomePoints that fills the worst-case and best-case lists. */
  method CaseLists(xs: seq<Assignment>, student: string) returns (resultsMin: seq<real>, resultsMax: seq<real>)
    ensures resultsMin == WorstCase(xs, student, |xs|)
    ensures resultsMax == BestCase(xs, student, |xs|)
  {
    resultsMin := [];
    resultsMax := [];
    var i := 0;
    while i < |xs|
      invariant 0 <= i <= |xs|
      invariant resultsMin == WorstCase(xs, student, i)
      invariant resultsMax == BestCase(xs, student, i)
    {
      var a := xs[i];
      var s := a.StudentOutcomePoints(None, student);
      if s.Unknown? {
        resultsMin := resultsMin + [0.0];
        resultsMax := resultsMax + [a.pointsPossible];
      } else {
        resultsMin := resultsMin + [s.r];
        resultsMax := resultsMax + [s.r];
      }
      i := i + 1;
    }
  }

  /** Sort both lists in ascending order and sum each over the window of the drop rules. */
  method SortedWindows(resultsMin: seq<real>, resultsMax: seq<real>, lo: int, hi: int)
    returns (pointsMin: real, pointsMax: real)
    ensures pointsMin == WindowSum(SortAsc(resultsMin), lo, hi)
    ensures pointsMax == WindowSum(SortAsc(resultsMax), lo, hi)
  {
    var sortedMin := SortAsc(resultsMin);
    var sortedMax := SortAsc(resultsMax);
    pointsMin := WindowedSum(sortedMin, lo, hi);
    pointsMax := WindowedSum(sortedMax, lo, hi);
  }

  /** The worst-case and best-case group points of a student. */
  method CaseBounds(xs: seq<Assignment>, student: string, lo: int, hi: int) returns (pointsMin: real, pointsMax: real)
    ensures pointsMin == WindowSum(SortAsc(WorstCase(xs, student, |xs|)), lo, hi)
    ensures pointsMax == WindowSum(SortAsc(BestCase(xs, student, |xs|)), lo, hi)
  {
    var resultsMin, resultsMax := CaseLists(xs, student);
    pointsMin, pointsMax := SortedWindows(resultsMin, resultsMax, lo, hi);
  }

  /** One assignment group with its drop rules and its assignments. */
  class AssignmentGroup {
    const name: string
    const id: string
    const dropLowest: int
    const dropHighest: int
    const assignments: seq<Assignment>

    constructor (name: string, id: string, dropLowest: int, dropHighest: int, assignments: seq<Assignment>)
      ensures this.name == name && this.id == id && this.dropLowest == dropLowest
      ensures this.dropHighest == dropHighest && this.assignments == assignments
    {
      this.name := name;
      this.id := id;
      this.dropLowest := dropLowest;
      this.dropHighest := dropHighest;
      this.assignments := assignments;
    }

    /** getMaximumOutcomePoints does not dereference a missing assignment. */
    predicate MaxReady(oa: Selector)
    {
      oa.assignmentName.Some? ==>
        var a := Named(assignments, oa.assignmentName.value);
        a.Some? && a.value.MaxDefined(Some(oa))
    }

    /** getStudentOutcomePoints does not dereference a missing assignment or rubric score. */
    predicate Ready(oa: Selector, student: string)
      reads Footprint(assignments)
    {
      MaxReady(oa)
      && if oa.assignmentName.None? then true
         else
           var a := Named(assignments, oa.assignmentName.value).value;
           FootprintHas(assignments, a);
           a.PointsDefined(Some(oa), student)
    }

    /**
     * The group maximum: the named assignment's maximum, or the window of the sorted item maxima
     * (which does not depend on any student).
     */
    function MaxPossible(oa: Selector): (m: real)
      requires MaxReady(oa)
      ensures oa.assignmentName.Some? ==> m == Named(assignments, oa.assignmentName.value).value.MaximumOutcomePoints(Some(oa))
      ensures oa.assignmentName.None? ==> m == WindowSum(SortAsc(Maxima(assignments, |assignments|)), dropLowest, dropHighest)
    {
      if oa.assignmentName.Some? then Named(assignments, oa.assignmentName.value).value.MaximumOutcomePoints(Some(oa))
      else WindowSum(SortAsc(Maxima(assignments, |assignments|)), dropLowest, dropHighest)
    }

    /** The worst-case group points: the window of the sorted worst-case list. */
    function PointsMin(student: string): real
      reads assignments
    {
      WindowSum(SortAsc(WorstCase(assignments, student, |assignments|)), dropLowest, dropHighest)
    }

    /** The best-case group points: the window of the sorted best-case list. */
    function PointsMax(student: string): real
      reads assignments
    {
      WindowSum(SortAsc(BestCase(assignments, student, |assignments|)), dropLowest, dropHighest)
    }

    /** The group's points for the association: delegated to a named assignment, else the 0.70 rule. */
    function Points(oa: Selector, student: string): (r: Score)
      requires Ready(oa, student)
      reads Footprint(assignments)
      ensures oa.assignmentName.Some? ==>
                r == Named(assignments, oa.assignmentName.value).value.StudentOutcomePoints(Some(oa), student)
      ensures oa.assignmentName.None? ==> r == Decide(PointsMin(student), PointsMax(student), MaxPossible(oa))
    {
      if oa.assignmentName.Some? then
        var a := Named(assignments, oa.assignmentName.value).value;
        FootprintHas(assignments, a);
        a.StudentOutcomePoints(Some(oa), student)
      else Decide(PointsMin(student), PointsMax(student), MaxPossible(oa))
    }

    /** getMaximumOutcomePoints. */
    method MaximumOutcomePoints(oa: Selector) returns (m: real)
      requires MaxReady(oa)
      ensures m == MaxPossible(oa)
    {
      if oa.assignmentName.Some? {
        var a := AssignmentByName(assignments, oa.assignmentName.value);
        return a.value.MaximumOutcomePoints(Some(oa));
      }
      var results: seq<real> := [];
      var i := 0;
      while i < |assignments|
        invariant 0 <= i <= |assignments|
        invariant results == Maxima(assignments, i)
      {
        results := results + [assignments[i].MaximumOutcomePoints(None)];
        i := i + 1;
      }
      results := SortAsc(results);
      m := WindowedSum(results, dropLowest, dropHighest);
    }

    /** getStudentOutcomePoints. */
    method StudentOutcomePoints(oa: Selector, student: string) returns (r: Score)
      requires Ready(oa, student)
      ensures r == Points(oa, student)
    {
      var maxPossible := MaximumOutcomePoints(oa);
      if oa.assignmentName.Some? {
        var a := AssignmentByName(assignments, oa.assignmentName.value);
        return a.value.StudentOutcomePoints(Some(oa), student);
      }
      var pointsMin, pointsMax := CaseBounds(assignments, student, dropLowest, dropHighest);
      if AtLeast(Divide(Known(pointsMin), maxPossible), 0.70) {
        return Known(pointsMin);
      }
      if Below(Divide(Known(pointsMax), maxPossible), 0.70) {
        return Known(pointsMin);
      }
      return Unknown;
    }

    /** loadGrades: the group's assignments load their grades, each from its own submissions. */
    method LoadGrades(fetched: map<string, seq<Submission>>, teams: Option<set<string>>)
      requires forall a :: a in assignments ==> RubricTakes(a, FetchedFor(fetched, a.id), teams)
      modifies set a | a in assignments, set a | a in assignments :: a.rubric
      ensures forall a :: a in assignments ==> a.grades == LoadedGrades(a, fetched, teams)
    {
      var _ := Assignments.LoadGrades(assignments, fetched, teams);
    }

    /** contains: the first assignment with the name decides; a null criterion is contained by any. */
    method Contains(assignmentName: string, criterion: Option<string>) returns (found: bool)
      ensures found == ContainsSpec(assignmentName, criterion)
    {
      var i := 0;
      while i < |assignments|
        invariant 0 <= i <= |assignments|
        invariant FirstNamed(assignments, assignmentName, 0) == FirstNamed(assignments, assignmentName, i)
      {
        if assignments[i].name == assignmentName {
          if criterion.None? {
            return true;
          }
          return assignments[i].Contains(criterion.value);
        }
        i := i + 1;
      }
      return false;
    }

    /** The assignment-and-criterion test: false without an assignment of that name, else true for a null criterion, else its rubric decides. */
    function ContainsSpec(assignmentName: string, criterion: Option<string>): bool
    {
      var a := Named(assignments, assignmentName);
      a.Some? && (criterion.None? || a.value.Contains(criterion.value))
    }
  }

  /** contains, stated outright: the first assignment named so exists and has the criterion (or none is asked). */
  lemma ContainsIff(g: AssignmentGroup, assignmentName: string, criterion: Option<string>)
    ensures g.ContainsSpec(assignmentName, criterion) <==>
      exists i :: 0 <= i < |g.assignments| && g.assignments[i].name == assignmentName
                  && (forall j :: 0 <= j < i ==> g.assignments[j].name != assignmentName)
                  && (criterion.None? || g.assignments[i].Contains(criterion.value))
  {
    var f := FirstNamed(g.assignments, assignmentName, 0);
    if f.Some? {
      assert g.assignments[f.value].name == assignmentName;
    }
  }

  /** A known group result is always the worst case, never the best case. */
  lemma KnownResultIsWorstCase(g: AssignmentGroup, oa: Selector, student: string)
    requires oa.assignmentName.None? && g.Ready(oa, student)
    ensures g.Points(oa, student).Known? ==> g.Points(oa, student).r == g.PointsMin(student)
    ensures g.Points(oa, student).Unknown? <==>
              !AtLeast(Divide(Known(g.PointsMin(student)), g.MaxPossible(oa)), 0.70)
              && !Below(Divide(Known(g.PointsMax(student)), g.MaxPossible(oa)), 0.70)
  {
  }

  /** The worst-case list is pointwise below the best-case list when no points possible is negative. */
  lemma BracketOrdered(xs: seq<Assignment>, student: string)
    requires forall i :: 0 <= i < |xs| ==> xs[i].pointsPossible >= 0.0
    ensures PointwiseLe(WorstCase(xs, student, |xs|), BestCase(xs, student, |xs|))
  {
    forall i | 0 <= i < |xs|
      ensures WorstCase(xs, student, |xs|)[i] <= BestCase(xs, student, |xs|)[i]
    {
      Bracket(xs, student, |xs|, i);
    }
  }

  /** With no negative points possible, the worst case never exceeds the best case. */
  lemma MinAtMostMax(g: AssignmentGroup, student: string)
    requires forall i :: 0 <= i < |g.assignments| ==> g.assignments[i].pointsPossible >= 0.0
    ensures g.PointsMin(student) <= g.PointsMax(student)
  {
    var worst := WorstCase(g.assignments, student, |g.assignments|);
    var best := BestCase(g.assignments, student, |g.assignments|);
    BracketOrdered(g.assignments, student);
    SortAscMonotone(worst, best);
    WindowSumMonotone(SortAsc(worst), SortAsc(best), g.dropLowest, g.dropHighest);
  }

  /** Without unknown scores both lists are the list of scores. */
  lemma NoUnknownListsAgree(xs: seq<Assignment>, student: string)
    requires forall i :: 0 <= i < |xs| ==> xs[i].Grade(student).Known?
    ensures WorstCase(xs, student, |xs|) == BestCase(xs, student, |xs|)
  {
    var worst := WorstCase(xs, student, |xs|);
    var best := BestCase(xs, student, |xs|);
    forall i | 0 <= i < |xs| ensures worst[i] == best[i] {
      Bracket(xs, student, |xs|, i);
    }
  }

  /**
   * Without unknown scores and with a positive maximum, the group result is known and is exactly
   * the windowed sum of the sorted scores.
   */
  lemma NoUnknownExactResult(g: AssignmentGroup, oa: Selector, student: string)
    requires oa.assignmentName.None? && g.Ready(oa, student)
    requires forall i :: 0 <= i < |g.assignments| ==> g.assignments[i].Grade(student).Known?
    requires g.MaxPossible(oa) > 0.0
    ensures g.PointsMin(student) == g.PointsMax(student)
    ensures g.Points(oa, student) == Known(g.PointsMin(student))
  {
    NoUnknownListsAgree(g.assignments, student);
  }

  /** Dropping at least as many assignments as the group has leaves 0 worst case over a 0 maximum: unknown. */
  lemma EverythingDroppedIsUnknown(g: AssignmentGroup, oa: Selector, student: string)
    requires oa.assignmentName.None? && g.Ready(oa, student)
    requires g.dropLowest + g.dropHighest >= |g.assignments|
    ensures g.PointsMin(student) == 0.0 && g.PointsMax(student) == 0.0 && g.MaxPossible(oa) == 0.0
    ensures g.Points(oa, student) == Unknown
  {
    WindowSumEmpty(SortAsc(WorstCase(g.assignments, student, |g.assignments|)), g.dropLowest, g.dropHighest);
    WindowSumEmpty(SortAsc(BestCase(g.assignments, student, |g.assignments|)), g.dropLowest, g.dropHighest);
    WindowSumEmpty(SortAsc(Maxima(g.assignments, |g.assignments|)), g.dropLowest, g.dropHighest);
  }
}
