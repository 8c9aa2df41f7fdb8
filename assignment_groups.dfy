/**
 * The assignment groups of a course, as the per-outcome sums, percentages and
 * averages see them: every (group, association) pair whose names are equal
 * contributes one term, visited with the groups outer and the outcome's
 * associations inner.
 */
module AssignmentGroupList {
  import opened Wrappers
  import opened Scores
  import opened Associations
  import opened Assignments
  import opened AssignmentGroupScoring

  /** A group and an association that names it: one term of an outcome's sums. */
  predicate Matching(g: AssignmentGroup, a: OutcomeAssociation)
  {
    g.name == a.sel.groupName
  }

  /** The objects the scores of the groups depend on. */
  function GroupsFootprint(groups: seq<AssignmentGroup>): set<object>
  {
    set i, o | 0 <= i < |groups| && o in Footprint(groups[i].assignments) :: o
  }

  /** Everything in the footprint of allocated groups is allocated. */
  lemma GroupsFootprintAllocated(groups: seq<AssignmentGroup>)
    ensures forall o :: o in GroupsFootprint(groups) ==> allocated(o)
  {
    forall i | 0 <= i < |groups| {
      FootprintAllocated(groups[i].assignments);
    }
  }

  /** No association naming g names a missing assignment of g. */
  predicate GroupMaxReady(g: AssignmentGroup, assocs: seq<OutcomeAssociation>)
  {
    forall j :: 0 <= j < |assocs| && Matching(g, assocs[j]) ==> g.MaxReady(assocs[j].sel)
  }

  /** Every association naming g has its points defined for the student. */
  predicate GroupReady(g: AssignmentGroup, assocs: seq<OutcomeAssociation>, student: string)
    reads Footprint(g.assignments)
  {
    forall j :: 0 <= j < |assocs| && Matching(g, assocs[j]) ==> g.Ready(assocs[j].sel, student)
  }

  predicate AllMaxReady(groups: seq<AssignmentGroup>, assocs: seq<OutcomeAssociation>)
  {
    forall i :: 0 <= i < |groups| ==> GroupMaxReady(groups[i], assocs)
  }

  predicate AllReady(groups: seq<AssignmentGroup>, assocs: seq<OutcomeAssociation>, student: string)
    reads GroupsFootprint(groups)
  {
    forall i :: 0 <= i < |groups| ==> GroupReady(groups[i], assocs, student)
  }

  /** The number of associations among the first m that name g. */
  function GroupCount(g: AssignmentGroup, assocs: seq<OutcomeAssociation>, m: nat): nat
    requires m <= |assocs|
  {
    if m == 0 then 0
    else if Matching(g, assocs[m - 1]) then GroupCount(g, assocs, m - 1) + 1
    else GroupCount(g, assocs, m - 1)
  }

  /** The number of matching pairs among the first n groups. */
  function PairCount(groups: seq<AssignmentGroup>, assocs: seq<OutcomeAssociation>, n: nat): nat
    requires n <= |groups|
  {
    if n == 0 then 0 else PairCount(groups, assocs, n - 1) + GroupCount(groups[n - 1], assocs, |assocs|)
  }

  /** The student's points from g over the first m associations, added as Java doubles. */
  function GroupPoints(g: AssignmentGroup, assocs: seq<OutcomeAssociation>, m: nat, student: string): Score
    requires m <= |assocs| && GroupReady(g, assocs, student)
    reads Footprint(g.assignments)
  {
    if m == 0 then Known(0.0)
    else if Matching(g, assocs[m - 1]) then Plus(GroupPoints(g, assocs, m - 1, student), g.Points(assocs[m - 1].sel, student))
    else GroupPoints(g, assocs, m - 1, student)
  }

  /** The student's points over the first n groups. */
  function OutcomePoints(groups: seq<AssignmentGroup>, assocs: seq<OutcomeAssociation>, n: nat, student: string): Score
    requires n <= |groups| && AllReady(groups, assocs, student)
    reads GroupsFootprint(groups)
  {
    if n == 0 then Known(0.0)
    else Plus(OutcomePoints(groups, assocs, n - 1, student), GroupPoints(groups[n - 1], assocs, |assocs|, student))
  }

  /** The maxima from g over the first m associations. */
  function GroupMax(g: AssignmentGroup, assocs: seq<OutcomeAssociation>, m: nat): real
    requires m <= |assocs| && GroupMaxReady(g, assocs)
  {
    if m == 0 then 0.0
    else if Matching(g, assocs[m - 1]) then GroupMax(g, assocs, m - 1) + g.MaxPossible(assocs[m - 1].sel)
    else GroupMax(g, assocs, m - 1)
  }

  /** The maxima over the first n groups. */
  function OutcomeMax(groups: seq<AssignmentGroup>, assocs: seq<OutcomeAssociation>, n: nat): real
    requires n <= |groups| && AllMaxReady(groups, assocs)
  {
    if n == 0 then 0.0 else OutcomeMax(groups, assocs, n - 1) + GroupMax(groups[n - 1], assocs, |assocs|)
  }

  /**
   * getStudentOutcomePoints: the points over every matching pair, groups outer, associations inner.
   * Each term is g.Points, the value AssignmentGroup.StudentOutcomePoints is proved to return.
   */
  method StudentOutcomePoints(groups: seq<AssignmentGroup>, assocs: seq<OutcomeAssociation>, student: string)
    returns (outcomePoints: Score)
    requires AllReady(groups, assocs, student)
    ensures outcomePoints == OutcomePoints(groups, assocs, |groups|, student)
  {
    outcomePoints := Known(0.0);
    var i := 0;
    while i < |groups|
      invariant 0 <= i <= |groups|
      invariant outcomePoints == OutcomePoints(groups, assocs, i, student)
    {
      var g := groups[i];
      assert GroupReady(g, assocs, student);
      var j := 0;
      while j < |assocs|
        invariant 0 <= j <= |assocs|
        invariant outcomePoints == Plus(OutcomePoints(groups, assocs, i, student), GroupPoints(g, assocs, j, student))
      {
        if g.name == assocs[j].sel.groupName {
          outcomePoints := Plus(outcomePoints, g.Points(assocs[j].sel, student));
        }
        j := j + 1;
      }
      i := i + 1;
    }
  }

  /** The inner loop of getMaximumOutcomePoints: adds g's maximum for each association naming it. */
  method AddGroupMax(g: AssignmentGroup, assocs: seq<OutcomeAssociation>, acc: real) returns (outcomePoints: real)
    requires GroupMaxReady(g, assocs)
    ensures outcomePoints == acc + GroupMax(g, assocs, |assocs|)
  {
    outcomePoints := acc;
    var j := 0;
    while j < |assocs|
      invariant 0 <= j <= |assocs|
      invariant outcomePoints == acc + GroupMax(g, assocs, j)
    {
      if g.name == assocs[j].sel.groupName {
        var m := g.MaximumOutcomePoints(assocs[j].sel);
        outcomePoints := outcomePoints + m;
      }
      j := j + 1;
    }
  }

  /** getMaximumOutcomePoints: the maxima over every matching pair. */
  method MaximumOutcomePoints(groups: seq<AssignmentGroup>, assocs: seq<OutcomeAssociation>)
    returns (outcomePoints: real)
    requires AllMaxReady(groups, assocs)
    ensures outcomePoints == OutcomeMax(groups, assocs, |groups|)
  {
    outcomePoints := 0.0;
    var i := 0;
    while i < |groups|
      invariant 0 <= i <= |groups|
      invariant outcomePoints == OutcomeMax(groups, assocs, i)
    {
      outcomePoints := AddGroupMax(groups[i], assocs, outcomePoints);
      i := i + 1;
    }
  }

  /** The first group at or after `from` with the name. */
  function FirstGroupNamed(groups: seq<AssignmentGroup>, name: string, from: nat): (i: Option<nat>)
    requires from <= |groups|
    ensures i.Some? ==> from <= i.value < |groups| && groups[i.value].name == name
                        && forall j :: from <= j < i.value ==> groups[j].name != name
    ensures i.None? ==> forall j :: from <= j < |groups| ==> groups[j].name != name
    decreases |groups| - from
  {
    if from == |groups| then None
    else if groups[from].name == name then Some(from)
    else FirstGroupNamed(groups, name, from + 1)
  }

  /** The group named `name` as getFromName finds it. */
  function FromName(groups: seq<AssignmentGroup>, name: string): (g: Option<AssignmentGroup>)
    ensures g.Some? ==> g.value in groups && g.value.name == name
    ensures g.Some? ==> exists i :: 0 <= i < |groups| && groups[i] == g.value && forall j :: 0 <= j < i ==> groups[j].name != name
    ensures g.None? <==> forall j :: 0 <= j < |groups| ==> groups[j].name != name
  {
    var i := FirstGroupNamed(groups, name, 0);
    if i.Some? then Some(groups[i.value]) else None
  }

  /** getFromName: the first group with the name, or null. */
  method GetFromName(groups: seq<AssignmentGroup>, name: string) returns (g: Option<AssignmentGroup>)
    ensures g == FromName(groups, name)
  {
    var i := 0;
    while i < |groups|
      invariant 0 <= i <= |groups|
      invariant FirstGroupNamed(groups, name, 0) == FirstGroupNamed(groups, name, i)
    {
      if groups[i].name == name {
        return Some(groups[i]);
      }
      i := i + 1;
    }
    return None;
  }

  /** The association's group, if the course has one, can score it without a null dereference. */
  predicate AssignmentReady(groups: seq<AssignmentGroup>, oa: OutcomeAssociation, student: string)
    reads GroupsFootprint(groups)
  {
    var i := FirstGroupNamed(groups, oa.sel.groupName, 0);
    i.Some? ==> groups[i.value].Ready(oa.sel, student)
  }

  /** getStudentAssignmentPoints: unknown without a group of that name, else the group's points. */
  function AssignmentPoints(groups: seq<AssignmentGroup>, oa: OutcomeAssociation, student: string): (r: Score)
    requires AssignmentReady(groups, oa, student)
    reads GroupsFootprint(groups)
  {
    var i := FirstGroupNamed(groups, oa.sel.groupName, 0);
    if i.None? then Unknown else groups[i.value].Points(oa.sel, student)
  }

  /**
   * getStudentAssignmentPercent: unknown without a group; 0 when the maximum is 0, whatever the points;
   * unknown when the points are; else points over maximum.
   */
  function AssignmentPercent(groups: seq<AssignmentGroup>, oa: OutcomeAssociation, student: string): (r: Score)
    requires AssignmentReady(groups, oa, student)
    reads GroupsFootprint(groups)
  {
    var i := FirstGroupNamed(groups, oa.sel.groupName, 0);
    if i.None? then Unknown
    else if groups[i.value].MaxPossible(oa.sel) == 0.0 then Known(0.0)
    else Quotient(groups[i.value].Points(oa.sel, student), groups[i.value].MaxPossible(oa.sel))
  }

  /** The group's maximum for the association, 0 when there is no group of that name. */
  function AssignmentMax(groups: seq<AssignmentGroup>, oa: OutcomeAssociation): real
    requires var i := FirstGroupNamed(groups, oa.sel.groupName, 0); i.Some? ==> groups[i.value].MaxReady(oa.sel)
  {
    var i := FirstGroupNamed(groups, oa.sel.groupName, 0);
    if i.None? then 0.0 else groups[i.value].MaxPossible(oa.sel)
  }

  /**
   * The percent and the points agree: both unknown without a group; with a nonzero maximum the
   * percent is the points' quotient (known exactly when they are); with a zero maximum it is 0.
   */
  lemma PercentFromPoints(groups: seq<AssignmentGroup>, oa: OutcomeAssociation, student: string)
    requires AssignmentReady(groups, oa, student)
    ensures FromName(groups, oa.sel.groupName).None? ==>
              AssignmentPoints(groups, oa, student) == Unknown && AssignmentPercent(groups, oa, student) == Unknown
    ensures FromName(groups, oa.sel.groupName).Some? ==>
              var m := AssignmentMax(groups, oa);
              var p := AssignmentPoints(groups, oa, student);
              var r := AssignmentPercent(groups, oa, student);
              (m == 0.0 ==> r == Known(0.0))
              && (m != 0.0 ==> r == Quotient(p, m))
  {
    var i := FirstGroupNamed(groups, oa.sel.groupName, 0);
    if i.Some? {
      var g := groups[i.value];
      var m := g.MaxPossible(oa.sel);
      assert AssignmentMax(groups, oa) == m;
      assert AssignmentPoints(groups, oa, student) == g.Points(oa.sel, student);
      if m != 0.0 {
        assert AssignmentPercent(groups, oa, student) == Quotient(g.Points(oa.sel, student), m);
      }
    }
  }

  /** getStudentAssignmentPoints. */
  method StudentAssignmentPoints(groups: seq<AssignmentGroup>, oa: OutcomeAssociation, student: string)
    returns (r: Score)
    requires AssignmentReady(groups, oa, student)
    ensures r == AssignmentPoints(groups, oa, student)
  {
    var g := GetFromName(groups, oa.sel.groupName);
    if g.None? {
      return Unknown;
    }
    r := g.value.StudentOutcomePoints(oa.sel, student);
  }

  /** getStudentAssignmentPercent. */
  method StudentAssignmentPercent(groups: seq<AssignmentGroup>, oa: OutcomeAssociation, student: string)
    returns (r: Score)
    requires AssignmentReady(groups, oa, student)
    ensures r == AssignmentPercent(groups, oa, student)
  {
    var g := GetFromName(groups, oa.sel.groupName);
    if g.None? {
      return Unknown;
    }
    var maxPoints := g.value.MaximumOutcomePoints(oa.sel);
    if maxPoints == 0.0 {
      return Known(0.0);
    }
    var studentPoints := g.value.StudentOutcomePoints(oa.sel, student);
    if studentPoints.Unknown? {
      return studentPoints;
    }
    r := Known(studentPoints.r / maxPoints);
  }

  /** The sum of g's percents over the first m associations naming it with a nonzero maximum. */
  function GroupPercentSum(g: AssignmentGroup, assocs: seq<OutcomeAssociation>, m: nat, student: string): Score
    requires m <= |assocs| && GroupReady(g, assocs, student)
    reads Footprint(g.assignments)
  {
    if m == 0 then Known(0.0)
    else if Matching(g, assocs[m - 1]) && g.MaxPossible(assocs[m - 1].sel) != 0.0 then
      Plus(GroupPercentSum(g, assocs, m - 1, student),
           Quotient(g.Points(assocs[m - 1].sel, student), g.MaxPossible(assocs[m - 1].sel)))
    else GroupPercentSum(g, assocs, m - 1, student)
  }

  /** How many of the first m associations name g with a nonzero maximum. */
  function GroupNonzero(g: AssignmentGroup, assocs: seq<OutcomeAssociation>, m: nat): nat
    requires m <= |assocs| && GroupMaxReady(g, assocs)
  {
    if m == 0 then 0
    else if Matching(g, assocs[m - 1]) && g.MaxPossible(assocs[m - 1].sel) != 0.0 then GroupNonzero(g, assocs, m - 1) + 1
    else GroupNonzero(g, assocs, m - 1)
  }

  function PercentSum(groups: seq<AssignmentGroup>, assocs: seq<OutcomeAssociation>, n: nat, student: string): Score
    requires n <= |groups| && AllReady(groups, assocs, student)
    reads GroupsFootprint(groups)
  {
    if n == 0 then Known(0.0)
    else Plus(PercentSum(groups, assocs, n - 1, student), GroupPercentSum(groups[n - 1], assocs, |assocs|, student))
  }

  function NonzeroCount(groups: seq<AssignmentGroup>, assocs: seq<OutcomeAssociation>, n: nat): nat
    requires n <= |groups| && AllMaxReady(groups, assocs)
  {
    if n == 0 then 0 else NonzeroCount(groups, assocs, n - 1) + GroupNonzero(groups[n - 1], assocs, |assocs|)
  }

  /** A group ready for every association naming it has every such maximum defined. */
  lemma ReadyGroupMaxReady(g: AssignmentGroup, assocs: seq<OutcomeAssociation>, student: string)
    requires GroupReady(g, assocs, student)
    ensures GroupMaxReady(g, assocs)
  {
  }

  /** Ready implies max-ready, group by group. */
  lemma ReadyMaxReady(groups: seq<AssignmentGroup>, assocs: seq<OutcomeAssociation>, student: string)
    requires AllReady(groups, assocs, student)
    ensures AllMaxReady(groups, assocs)
  {
    forall i | 0 <= i < |groups| ensures GroupMaxReady(groups[i], assocs) {
      assert GroupReady(groups[i], assocs, student);
    }
  }

  /** The mean percent over the pairs with a nonzero maximum, or 0 when there are none. */
  function AveragePercent(groups: seq<AssignmentGroup>, assocs: seq<OutcomeAssociation>, student: string): Score
    requires AllReady(groups, assocs, student)
    reads GroupsFootprint(groups)
  {
    ReadyMaxReady(groups, assocs, student);
    var count := NonzeroCount(groups, assocs, |groups|);
    if count != 0 then Quotient(PercentSum(groups, assocs, |groups|, student), count as real) else Known(0.0)
  }

  /** One association more: a term and a count exactly when it names g with a nonzero maximum. */
  lemma PercentStep(g: AssignmentGroup, assocs: seq<OutcomeAssociation>, j: nat, student: string)
    requires j < |assocs| && GroupReady(g, assocs, student)
    ensures GroupMaxReady(g, assocs)
    ensures Matching(g, assocs[j]) && g.MaxPossible(assocs[j].sel) != 0.0 ==>
              GroupPercentSum(g, assocs, j + 1, student)
                == Plus(GroupPercentSum(g, assocs, j, student), Quotient(g.Points(assocs[j].sel, student), g.MaxPossible(assocs[j].sel)))
              && GroupNonzero(g, assocs, j + 1) == GroupNonzero(g, assocs, j) + 1
    ensures !(Matching(g, assocs[j]) && g.MaxPossible(assocs[j].sel) != 0.0) ==>
              GroupPercentSum(g, assocs, j + 1, student) == GroupPercentSum(g, assocs, j, student)
              && GroupNonzero(g, assocs, j + 1) == GroupNonzero(g, assocs, j)
  {
  }


  /** One group more adds its percent sum and its count. */
  lemma AverageStep(groups: seq<AssignmentGroup>, assocs: seq<OutcomeAssociation>, i: nat, student: string)
    requires i < |groups| && AllReady(groups, assocs, student) && AllMaxReady(groups, assocs)
    ensures GroupReady(groups[i], assocs, student) && GroupMaxReady(groups[i], assocs)
    ensures PercentSum(groups, assocs, i + 1, student)
              == Plus(PercentSum(groups, assocs, i, student), GroupPercentSum(groups[i], assocs, |assocs|, student))
    ensures NonzeroCount(groups, assocs, i + 1) == NonzeroCount(groups, assocs, i) + GroupNonzero(groups[i], assocs, |assocs|)
  {
  }

  /**
   * The inner loop of getStudentAverageOutcomePercent for one group: every association naming it
   * with a nonzero maximum adds its percent and is counted.
   */
  method GroupPercents(g: AssignmentGroup, assocs: seq<OutcomeAssociation>, student: string)
    returns (groupSum: Score, groupCount: nat)
    requires GroupReady(g, assocs, student)
    ensures GroupMaxReady(g, assocs)
    ensures groupSum == GroupPercentSum(g, assocs, |assocs|, student)
    ensures groupCount == GroupNonzero(g, assocs, |assocs|)
  {
    ReadyGroupMaxReady(g, assocs, student);
    groupSum, groupCount := Known(0.0), 0;
    var j := 0;
    while j < |assocs|
      invariant 0 <= j <= |assocs|
      invariant groupSum == GroupPercentSum(g, assocs, j, student)
      invariant groupCount == GroupNonzero(g, assocs, j)
    {
      groupSum, groupCount := AddPercent(g, assocs, j, student, groupSum, groupCount);
      j := j + 1;
    }
  }

  /** One pass of the inner loop: association j adds its percent and is counted when it names g with a nonzero maximum. */
  method AddPercent(g: AssignmentGroup, assocs: seq<OutcomeAssociation>, j: nat, student: string,
                    groupSum: Score, groupCount: nat)
    returns (groupSum': Score, groupCount': nat)
    requires j < |assocs| && GroupReady(g, assocs, student) && GroupMaxReady(g, assocs)
    requires groupSum == GroupPercentSum(g, assocs, j, student) && groupCount == GroupNonzero(g, assocs, j)
    ensures groupSum' == GroupPercentSum(g, assocs, j + 1, student)
    ensures groupCount' == GroupNonzero(g, assocs, j + 1)
  {
    PercentStep(g, assocs, j, student);
    groupSum', groupCount' := groupSum, groupCount;
    if g.name == assocs[j].sel.groupName {
      var outcomePoints := g.Points(assocs[j].sel, student);
      var maxPoints := g.MaxPossible(assocs[j].sel);
      if maxPoints != 0.0 {
        groupSum' := Plus(groupSum, Quotient(outcomePoints, maxPoints));
        groupCount' := groupCount + 1;
      }
    }
  }

  /** One pass of the outer loop: the group at index i adds its percent sum and its count. */
  method AddGroupPercents(groups: seq<AssignmentGroup>, i: nat, assocs: seq<OutcomeAssociation>, student: string,
                          percentSum: Score, count: nat)
    returns (percentSum': Score, count': nat)
    requires i < |groups| && AllReady(groups, assocs, student) && AllMaxReady(groups, assocs)
    requires percentSum == PercentSum(groups, assocs, i, student)
    requires count == NonzeroCount(groups, assocs, i)
    ensures AllReady(groups, assocs, student)
    ensures percentSum' == PercentSum(groups, assocs, i + 1, student)
    ensures count' == NonzeroCount(groups, assocs, i + 1)
  {
    AverageStep(groups, assocs, i, student);
    ghost var next := PercentSum(groups, assocs, i + 1, student);
    GroupsFootprintAllocated(groups);
    var groupSum, groupCount := GroupPercents(groups[i], assocs, student);
    assert PercentSum(groups, assocs, i + 1, student) == next;
    percentSum', count' := Plus(percentSum, groupSum), count + groupCount;
  }

  /** The outer loop of getStudentAverageOutcomePercent: each group's percents added and counted. */
  method PercentTotals(groups: seq<AssignmentGroup>, assocs: seq<OutcomeAssociation>, student: string)
    returns (percentSum: Score, count: nat)
    requires AllReady(groups, assocs, student)
    ensures AllMaxReady(groups, assocs)
    ensures percentSum == PercentSum(groups, assocs, |groups|, student)
    ensures count == NonzeroCount(groups, assocs, |groups|)
  {
    ReadyMaxReady(groups, assocs, student);
    percentSum, count := Known(0.0), 0;
    var i := 0;
    while i < |groups|
      invariant 0 <= i <= |groups|
      invariant AllReady(groups, assocs, student)
      invariant percentSum == PercentSum(groups, assocs, i, student)
      invariant count == NonzeroCount(groups, assocs, i)
    {
      percentSum, count := AddGroupPercents(groups, i, assocs, student, percentSum, count);
      i := i + 1;
    }
  }

  /** getStudentAverageOutcomePercent: the mean over the counted percents, or 0 when nothing was counted. */
  method AverageOutcomePercent(groups: seq<AssignmentGroup>, assocs: seq<OutcomeAssociation>, student: string)
    returns (r: Score)
    requires AllReady(groups, assocs, student)
    ensures r == AveragePercent(groups, assocs, student)
  {
    var percentSum, count := PercentTotals(groups, assocs, student);
    if count != 0 {
      return Quotient(percentSum, count as real);
    }
    return Known(0.0);
  }

  /** The percents of g over the first m associations naming it: points over maximum, unguarded. */
  function GroupPercentList(g: AssignmentGroup, assocs: seq<OutcomeAssociation>, m: nat, student: string)
    : (r: seq<Double>)
    requires m <= |assocs| && GroupReady(g, assocs, student)
    reads Footprint(g.assignments)
    ensures |r| == GroupCount(g, assocs, m)
  {
    if m == 0 then []
    else if Matching(g, assocs[m - 1]) then
      GroupPercentList(g, assocs, m - 1, student)
        + [Divide(g.Points(assocs[m - 1].sel, student), g.MaxPossible(assocs[m - 1].sel))]
    else GroupPercentList(g, assocs, m - 1, student)
  }

  /** The percents of every matching pair among the first n groups, in visiting order: one per pair. */
  function PercentList(groups: seq<AssignmentGroup>, assocs: seq<OutcomeAssociation>, n: nat, student: string)
    : (r: seq<Double>)
    requires n <= |groups| && AllReady(groups, assocs, student)
    reads GroupsFootprint(groups)
    ensures |r| == PairCount(groups, assocs, n)
  {
    if n == 0 then []
    else PercentList(groups, assocs, n - 1, student) + GroupPercentList(groups[n - 1], assocs, |assocs|, student)
  }

  /** The inner loop of getStudentAssignmentPercentages for one group. */
  method GroupPercentages(g: AssignmentGroup, assocs: seq<OutcomeAssociation>, student: string)
    returns (result: seq<Double>)
    requires GroupReady(g, assocs, student)
    ensures result == GroupPercentList(g, assocs, |assocs|, student)
  {
    result := [];
    var j := 0;
    while j < |assocs|
      invariant 0 <= j <= |assocs|
      invariant result == GroupPercentList(g, assocs, j, student)
    {
      if g.name == assocs[j].sel.groupName {
        var outcomePoints := g.Points(assocs[j].sel, student);
        var maxPoints := g.MaxPossible(assocs[j].sel);
        if outcomePoints.Unknown? {
          result := result + [NaN];
        } else {
          result := result + [Divide(outcomePoints, maxPoints)];
        }
      }
      j := j + 1;
    }
  }

  /** One pass of the outer loop of getStudentAssignmentPercentages: the group at index i appends its percents. */
  method AddGroupPercentages(groups: seq<AssignmentGroup>, i: nat, assocs: seq<OutcomeAssociation>, student: string,
                             result: seq<Double>)
    returns (result': seq<Double>)
    requires i < |groups| && AllReady(groups, assocs, student)
    requires result == PercentList(groups, assocs, i, student)
    ensures AllReady(groups, assocs, student)
    ensures result' == PercentList(groups, assocs, i + 1, student)
  {
    assert GroupReady(groups[i], assocs, student);
    ghost var next := PercentList(groups, assocs, i + 1, student);
    GroupsFootprintAllocated(groups);
    var groupResult := GroupPercentages(groups[i], assocs, student);
    assert PercentList(groups, assocs, i + 1, student) == next;
    result' := result + groupResult;
  }

  /** getStudentAssignmentPercentages: one percent per matching pair, groups outer, associations inner. */
  method StudentAssignmentPercentages(groups: seq<AssignmentGroup>, assocs: seq<OutcomeAssociation>, student: string)
    returns (result: seq<Double>)
    requires AllReady(groups, assocs, student)
    ensures result == PercentList(groups, assocs, |groups|, student)
  {
    result := [];
    var i := 0;
    while i < |groups|
      invariant 0 <= i <= |groups|
      invariant AllReady(groups, assocs, student)
      invariant result == PercentList(groups, assocs, i, student)
    {
      result := AddGroupPercentages(groups, i, assocs, student, result);
      i := i + 1;
    }
  }

  /** Every association naming g has known points and a nonzero maximum. */
  predicate GroupDefinite(g: AssignmentGroup, assocs: seq<OutcomeAssociation>, student: string)
    reads Footprint(g.assignments)
  {
    GroupReady(g, assocs, student)
    && forall j :: 0 <= j < |assocs| && Matching(g, assocs[j]) ==>
         g.Points(assocs[j].sel, student).Known? && g.MaxPossible(assocs[j].sel) != 0.0
  }

  /** With known points and nonzero maxima, every percent of a group is a finite number. */
  lemma {:induction false} GroupPercentListFinite(g: AssignmentGroup, assocs: seq<OutcomeAssociation>, m: nat, student: string)
    requires m <= |assocs| && GroupDefinite(g, assocs, student)
    ensures forall k :: 0 <= k < |GroupPercentList(g, assocs, m, student)| ==> GroupPercentList(g, assocs, m, student)[k].Finite?
  {
    if m > 0 {
      GroupPercentListFinite(g, assocs, m - 1, student);
    }
  }

  /** With known points and nonzero maxima everywhere, the percentages list holds no NaN and no infinity. */
  lemma {:induction false} PercentListFinite(groups: seq<AssignmentGroup>, assocs: seq<OutcomeAssociation>, n: nat, student: string)
    requires n <= |groups| && AllReady(groups, assocs, student)
    requires forall i :: 0 <= i < |groups| ==> GroupDefinite(groups[i], assocs, student)
    ensures forall k :: 0 <= k < |PercentList(groups, assocs, n, student)| ==> PercentList(groups, assocs, n, student)[k].Finite?
  {
    if n > 0 {
      PercentListFinite(groups, assocs, n - 1, student);
      GroupPercentListFinite(groups[n - 1], assocs, |assocs|, student);
    }
  }

  /** contains: the first group with the name decides; with no assignment name any such group contains it. */
  function GroupsContain(groups: seq<AssignmentGroup>, groupName: string, assignmentName: Option<string>,
                         criterion: Option<string>): bool
  {
    var i := FirstGroupNamed(groups, groupName, 0);
    i.Some? && (assignmentName.None? || groups[i.value].ContainsSpec(assignmentName.value, criterion))
  }

  /** contains. */
  method Contains(groups: seq<AssignmentGroup>, groupName: string, assignmentName: Option<string>,
                  criterion: Option<string>) returns (found: bool)
    ensures found == GroupsContain(groups, groupName, assignmentName, criterion)
  {
    var i := 0;
    while i < |groups|
      invariant 0 <= i <= |groups|
      invariant FirstGroupNamed(groups, groupName, 0) == FirstGroupNamed(groups, groupName, i)
    {
      if groups[i].name == groupName {
        if assignmentName.None? {
          return true;
        }
        found := groups[i].Contains(assignmentName.value, criterion);
        return;
      }
      i := i + 1;
    }
    return false;
  }

  /**
   * contains, stated outright: there is a group with the name, no earlier group has it, and either
   * no assignment is asked for or that group contains the assignment (and criterion).
   */
  lemma GroupsContainIff(groups: seq<AssignmentGroup>, groupName: string, assignmentName: Option<string>,
                         criterion: Option<string>)
    ensures GroupsContain(groups, groupName, assignmentName, criterion) <==>
      exists i :: 0 <= i < |groups| && groups[i].name == groupName
                  && (forall j :: 0 <= j < i ==> groups[j].name != groupName)
                  && (assignmentName.None? || groups[i].ContainsSpec(assignmentName.value, criterion))
  {
    var f := FirstGroupNamed(groups, groupName, 0);
    if f.Some? {
      assert groups[f.value].name == groupName;
    }
  }

  /** loadGrades: every group loads its assignments' grades; each assignment ends with its own recorded grades. */
  method LoadGrades(groups: seq<AssignmentGroup>, fetched: map<string, seq<Submission>>, teams: Option<set<string>>)
    requires forall i, a :: 0 <= i < |groups| && a in groups[i].assignments ==> RubricTakes(a, FetchedFor(fetched, a.id), teams)
    modifies set g, a | g in groups && a in g.assignments :: a
    modifies set g, a | g in groups && a in g.assignments :: a.rubric
    ensures forall i, a :: 0 <= i < |groups| && a in groups[i].assignments ==> a.grades == LoadedGrades(a, fetched, teams)
  {
    var i := 0;
    while i < |groups|
      invariant 0 <= i <= |groups|
      invariant forall k, a :: 0 <= k < i && a in groups[k].assignments ==> a.grades == LoadedGrades(a, fetched, teams)
    {
      groups[i].LoadGrades(fetched, teams);
      i := i + 1;
    }
  }

  /** A single Unknown term makes a group's points Unknown; otherwise they are known. */
  lemma {:induction false} GroupPointsKnown(g: AssignmentGroup, assocs: seq<OutcomeAssociation>, m: nat, student: string)
    requires m <= |assocs| && GroupReady(g, assocs, student)
    ensures GroupPoints(g, assocs, m, student).Known? <==>
              forall j :: 0 <= j < m && Matching(g, assocs[j]) ==> g.Points(assocs[j].sel, student).Known?
  {
    if m > 0 {
      GroupPointsKnown(g, assocs, m - 1, student);
    }
  }

  /** getStudentOutcomePoints does not filter Unknown terms: the total is known exactly when every matching term is. */
  lemma {:induction false} OutcomePointsKnown(groups: seq<AssignmentGroup>, assocs: seq<OutcomeAssociation>, n: nat, student: string)
    requires n <= |groups| && AllReady(groups, assocs, student)
    ensures OutcomePoints(groups, assocs, n, student).Known? <==>
              forall i, j :: 0 <= i < n && 0 <= j < |assocs| && Matching(groups[i], assocs[j]) ==>
                groups[i].Points(assocs[j].sel, student).Known?
  {
    if n > 0 {
      OutcomePointsKnown(groups, assocs, n - 1, student);
      GroupPointsKnown(groups[n - 1], assocs, |assocs|, student);
    }
  }

  /** Appending an association does not change a group's terms over the associations before it. */
  lemma {:induction false} GroupPointsAppend(g: AssignmentGroup, assocs: seq<OutcomeAssociation>, a: OutcomeAssociation,
                                             m: nat, student: string)
    requires m <= |assocs| && GroupReady(g, assocs + [a], student)
    ensures GroupReady(g, assocs, student) && GroupMaxReady(g, assocs + [a]) && GroupMaxReady(g, assocs)
    ensures GroupPoints(g, assocs + [a], m, student) == GroupPoints(g, assocs, m, student)
    ensures GroupMax(g, assocs + [a], m) == GroupMax(g, assocs, m)
  {
    assert forall j :: 0 <= j < |assocs| ==> (assocs + [a])[j] == assocs[j];
    ReadyGroupMaxReady(g, assocs + [a], student);
    ReadyGroupMaxReady(g, assocs, student);
    if m > 0 {
      GroupPointsAppend(g, assocs, a, m - 1, student);
    }
  }

  /** An association naming no group adds nothing to the outcome points or the outcome maximum. */
  lemma {:induction false} UnmatchedAssociationAddsNothing(groups: seq<AssignmentGroup>, assocs: seq<OutcomeAssociation>,
                                                           a: OutcomeAssociation, n: nat, student: string)
    requires n <= |groups| && AllReady(groups, assocs + [a], student)
    requires forall i :: 0 <= i < |groups| ==> groups[i].name != a.sel.groupName
    ensures AllReady(groups, assocs, student) && AllMaxReady(groups, assocs + [a]) && AllMaxReady(groups, assocs)
    ensures OutcomePoints(groups, assocs + [a], n, student) == OutcomePoints(groups, assocs, n, student)
    ensures OutcomeMax(groups, assocs + [a], n) == OutcomeMax(groups, assocs, n)
  {
    forall i | 0 <= i < |groups|
      ensures GroupReady(groups[i], assocs, student) && GroupMaxReady(groups[i], assocs + [a])
      ensures GroupMaxReady(groups[i], assocs)
    {
      assert GroupReady(groups[i], assocs + [a], student);
      GroupPointsAppend(groups[i], assocs, a, 0, student);
    }
    if n > 0 {
      UnmatchedAssociationAddsNothing(groups, assocs, a, n - 1, student);
      var g := groups[n - 1];
      assert GroupReady(g, assocs + [a], student);
      GroupPointsAppend(g, assocs, a, |assocs|, student);
      assert !Matching(g, (assocs + [a])[|assocs|]);
    }
  }

  /** A pair the average counts whose points are Unknown: the NaN that reaches the percent sum. */
  predicate UnknownPercentTerm(g: AssignmentGroup, a: OutcomeAssociation, student: string)
    reads Footprint(g.assignments)
  {
    Matching(g, a) && g.Ready(a.sel, student) && g.MaxPossible(a.sel) != 0.0 && g.Points(a.sel, student).Unknown?
  }

  /** One association more leaves the group's percent sum known exactly when it adds no Unknown term. */
  lemma PercentSumKnownStep(g: AssignmentGroup, assocs: seq<OutcomeAssociation>, m: nat, student: string)
    requires 0 < m <= |assocs| && GroupReady(g, assocs, student)
    ensures GroupPercentSum(g, assocs, m, student).Known? <==>
              GroupPercentSum(g, assocs, m - 1, student).Known? && !UnknownPercentTerm(g, assocs[m - 1], student)
  {
    if Matching(g, assocs[m - 1]) {
      assert g.Ready(assocs[m - 1].sel, student);
    }
  }

  /** A group's percent sum is known exactly when no term it counts has Unknown points. */
  lemma {:induction false} GroupPercentSumKnown(g: AssignmentGroup, assocs: seq<OutcomeAssociation>, m: nat, student: string)
    requires m <= |assocs| && GroupReady(g, assocs, student)
    ensures GroupPercentSum(g, assocs, m, student).Known? <==>
              forall j :: 0 <= j < m ==> !UnknownPercentTerm(g, assocs[j], student)
  {
    if m > 0 {
      GroupPercentSumKnown(g, assocs, m - 1, student);
      PercentSumKnownStep(g, assocs, m, student);
      if forall j :: 0 <= j < m - 1 ==> !UnknownPercentTerm(g, assocs[j], student) {
        if !UnknownPercentTerm(g, assocs[m - 1], student) {
          forall j | 0 <= j < m
            ensures !UnknownPercentTerm(g, assocs[j], student)
          {
            if j < m - 1 {
            }
          }
        }
      }
    }
  }

  /** A group counts a term exactly when some association naming it has a nonzero maximum. */
  lemma {:induction false} GroupNonzeroPositive(g: AssignmentGroup, assocs: seq<OutcomeAssociation>, m: nat)
    requires m <= |assocs| && GroupMaxReady(g, assocs)
    ensures GroupNonzero(g, assocs, m) > 0 <==>
              exists j :: 0 <= j < m && Matching(g, assocs[j]) && g.MaxPossible(assocs[j].sel) != 0.0
  {
    if m > 0 {
      GroupNonzeroPositive(g, assocs, m - 1);
    }
  }

  /** The Unknown-points pairs among the first n groups: those among the first n - 1, or one of group n - 1. */
  lemma UnknownTermsStep(groups: seq<AssignmentGroup>, assocs: seq<OutcomeAssociation>, n: nat, student: string)
    requires 0 < n <= |groups| && AllReady(groups, assocs, student)
    ensures (exists i, j :: 0 <= i < n && 0 <= j < |assocs| && UnknownPercentTerm(groups[i], assocs[j], student))
              <==> (exists i, j :: 0 <= i < n - 1 && 0 <= j < |assocs| && UnknownPercentTerm(groups[i], assocs[j], student))
                   || (exists j :: 0 <= j < |assocs| && UnknownPercentTerm(groups[n - 1], assocs[j], student))
  {
    if exists i, j :: 0 <= i < n && 0 <= j < |assocs| && UnknownPercentTerm(groups[i], assocs[j], student) {
      var i, j :| 0 <= i < n && 0 <= j < |assocs| && UnknownPercentTerm(groups[i], assocs[j], student);
      if i < n - 1 {
        assert 0 <= i < n - 1 && 0 <= j < |assocs| && UnknownPercentTerm(groups[i], assocs[j], student);
      }
    }
  }

  /** The percent sum is Unknown exactly when some counted pair has Unknown points. */
  lemma {:induction false} PercentSumUnknownIff(groups: seq<AssignmentGroup>, assocs: seq<OutcomeAssociation>, n: nat,
                                                student: string)
    requires n <= |groups| && AllReady(groups, assocs, student)
    ensures PercentSum(groups, assocs, n, student).Unknown? <==>
              exists i, j :: 0 <= i < n && 0 <= j < |assocs| && UnknownPercentTerm(groups[i], assocs[j], student)
  {
    if n > 0 {
      PercentSumUnknownIff(groups, assocs, n - 1, student);
      var g := groups[n - 1];
      assert GroupReady(g, assocs, student);
      GroupPercentSumKnown(g, assocs, |assocs|, student);
      UnknownTermsStep(groups, assocs, n, student);
    }
  }

  /** A pair with a matching name and a nonzero maximum makes the count positive. */
  lemma {:induction false} NonzeroCountPositive(groups: seq<AssignmentGroup>, assocs: seq<OutcomeAssociation>, n: nat,
                                                i: nat, j: nat)
    requires n <= |groups| && AllMaxReady(groups, assocs)
    requires i < n && j < |assocs| && Matching(groups[i], assocs[j]) && groups[i].MaxPossible(assocs[j].sel) != 0.0
    ensures NonzeroCount(groups, assocs, n) > 0
  {
    if i == n - 1 {
      GroupNonzeroPositive(groups[i], assocs, |assocs|);
    } else {
      NonzeroCountPositive(groups, assocs, n - 1, i, j);
    }
  }

  /**
   * getStudentAverageOutcomePercent does not exclude Unknown points: the average is Unknown exactly
   * when some matching pair with a nonzero maximum has Unknown points.
   */
  lemma AverageUnknownIff(groups: seq<AssignmentGroup>, assocs: seq<OutcomeAssociation>, student: string)
    requires AllReady(groups, assocs, student)
    ensures AveragePercent(groups, assocs, student).Unknown? <==>
              exists i, j :: 0 <= i < |groups| && 0 <= j < |assocs| && UnknownPercentTerm(groups[i], assocs[j], student)
  {
    ReadyMaxReady(groups, assocs, student);
    PercentSumUnknownIff(groups, assocs, |groups|, student);
    if exists i, j :: 0 <= i < |groups| && 0 <= j < |assocs| && UnknownPercentTerm(groups[i], assocs[j], student) {
      var i, j :| 0 <= i < |groups| && 0 <= j < |assocs| && UnknownPercentTerm(groups[i], assocs[j], student);
      NonzeroCountPositive(groups, assocs, |groups|, i, j);
    }
  }

  /** With no pair counted, the average is a known 0. */
  lemma NothingCountedAverageZero(groups: seq<AssignmentGroup>, assocs: seq<OutcomeAssociation>, student: string)
    requires AllReady(groups, assocs, student)
    requires forall i, j :: 0 <= i < |groups| && 0 <= j < |assocs| && Matching(groups[i], assocs[j]) ==>
               groups[i].MaxPossible(assocs[j].sel) == 0.0
    ensures AveragePercent(groups, assocs, student) == Known(0.0)
  {
    ReadyMaxReady(groups, assocs, student);
    if NonzeroCount(groups, assocs, |groups|) > 0 {
      NonzeroCountZero(groups, assocs, |groups|);
    }
  }

  /** Without a matching pair of nonzero maximum nothing is counted. */
  lemma {:induction false} NonzeroCountZero(groups: seq<AssignmentGroup>, assocs: seq<OutcomeAssociation>, n: nat)
    requires n <= |groups| && AllMaxReady(groups, assocs)
    requires forall i, j :: 0 <= i < n && 0 <= j < |assocs| && Matching(groups[i], assocs[j]) ==>
               groups[i].MaxPossible(assocs[j].sel) == 0.0
    ensures NonzeroCount(groups, assocs, n) == 0
  {
    if n > 0 {
      NonzeroCountZero(groups, assocs, n - 1);
      GroupNonzeroPositive(groups[n - 1], assocs, |assocs|);
    }
  }
}
