/**
 * The classification and tally logic of the outcome report's symbol table
 * (OutcomeReport.createSymbolTable): the KPI tier of every student on every
 * association, the per-student attainment verdict, the class-level counts
 * per outcome and per association. The text entries of the table (names,
 * formatted numbers) are not modelled; its KPI entries are, as a map from
 * (outcome, student, association) numbers to tiers.
 */
module OutcomeReport {
  import opened Wrappers
  import opened Scores
  import opened Associations
  import opened AssignmentGroupScoring
  import opened AssignmentGroupList

  /** A KPI tier: "E" exceeds, "A" achieves, "I" insufficient, "X" no score. */
  datatype Kpi = Exceeds | Achieves | Insufficient | NoScore

  /** The order of the known tiers: I < A < E. */
  function Rank(k: Kpi): nat
  {
    match k
    case Insufficient => 0
    case Achieves => 1
    case Exceeds => 2
    case NoScore => 0
  }

  /**
   * The tier of one student on one association: "X" when the points (or the
   * percent) are NaN, else by comparing the percent with the two thresholds,
   * exceeds first.
   */
  function Tier(points: Score, percent: Score, exceeds: real, demonstrates: real): (k: Kpi)
    ensures k.NoScore? <==> points.Unknown? || percent.Unknown?
    ensures k.Exceeds? <==> points.Known? && percent.Known? && percent.r >= exceeds
    ensures k.Achieves? <==> points.Known? && percent.Known? && demonstrates <= percent.r < exceeds
    ensures k.Insufficient? <==> points.Known? && percent.Known? && percent.r < exceeds && percent.r < demonstrates
  {
    if points.Unknown? then NoScore
    else if percent.Unknown? then NoScore
    else if percent.r >= exceeds then Exceeds
    else if percent.r >= demonstrates then Achieves
    else Insufficient
  }

  /** With the thresholds fixed, a higher percent never gives a lower tier. */
  lemma TierMonotone(points: Score, p: real, q: real, exceeds: real, demonstrates: real)
    requires points.Known? && p <= q
    ensures Rank(Tier(points, Known(p), exceeds, demonstrates)) <= Rank(Tier(points, Known(q), exceeds, demonstrates))
  {
    if q < exceeds && q >= demonstrates {
      assert Tier(points, Known(q), exceeds, demonstrates) == Achieves;
    }
  }

  /** The tier of a student on an association, from the group scores. */
  function StudentKpi(groups: seq<AssignmentGroup>, oa: OutcomeAssociation, student: string): (k: Kpi)
    requires AssignmentReady(groups, oa, student)
    reads GroupsFootprint(groups)
    ensures var points, percent := AssignmentPoints(groups, oa, student), AssignmentPercent(groups, oa, student);
            (k.NoScore? <==> points.Unknown? || percent.Unknown?)
            && (k.Exceeds? <==> points.Known? && percent.Known? && percent.r >= oa.exceeds)
            && (k.Achieves? <==> points.Known? && percent.Known? && oa.demonstrates <= percent.r < oa.exceeds)
            && (k.Insufficient? <==> points.Known? && percent.Known? && percent.r < oa.exceeds && percent.r < oa.demonstrates)
  {
    Tier(AssignmentPoints(groups, oa, student), AssignmentPercent(groups, oa, student), oa.exceeds, oa.demonstrates)
  }

  /** An association whose group the course lacks scores "X" for every student. */
  lemma MissingGroupNoScore(groups: seq<AssignmentGroup>, oa: OutcomeAssociation, student: string)
    requires AssignmentReady(groups, oa, student) && FromName(groups, oa.sel.groupName).None?
    ensures StudentKpi(groups, oa, student) == NoScore
  {
    PercentFromPoints(groups, oa, student);
  }

  /** One student on one association: the points first, then the percent, then the thresholds. */
  method KpiOf(groups: seq<AssignmentGroup>, oa: OutcomeAssociation, student: string) returns (k: Kpi)
    requires AssignmentReady(groups, oa, student)
    ensures k == StudentKpi(groups, oa, student)
  {
    var points := StudentAssignmentPoints(groups, oa, student);
    if points.Unknown? {
      return NoScore;
    }
    var percent := StudentAssignmentPercent(groups, oa, student);
    if percent.Unknown? {
      k := NoScore;
    } else if percent.r >= oa.exceeds {
      k := Exceeds;
    } else if percent.r >= oa.demonstrates {
      k := Achieves;
    } else {
      k := Insufficient;
    }
  }

  /** Every student can be scored on every association. */
  predicate AllAssignmentsReady(groups: seq<AssignmentGroup>, assocs: seq<OutcomeAssociation>, students: seq<string>)
    reads GroupsFootprint(groups)
  {
    forall a, s :: 0 <= a < |assocs| && 0 <= s < |students| ==> AssignmentReady(groups, assocs[a], students[s])
  }

  /** Every student can be scored on one association. */
  predicate ColumnReady(groups: seq<AssignmentGroup>, oa: OutcomeAssociation, students: seq<string>)
    reads GroupsFootprint(groups)
  {
    forall s :: 0 <= s < |students| ==> AssignmentReady(groups, oa, students[s])
  }

  /** The tiers of every student on one association, in student order. */
  method AssociationKpis(groups: seq<AssignmentGroup>, oa: OutcomeAssociation, students: seq<string>)
    returns (row: seq<Kpi>)
    requires ColumnReady(groups, oa, students)
    ensures |row| == |students|
    ensures forall s :: 0 <= s < |students| ==> row[s] == StudentKpi(groups, oa, students[s])
  {
    row := [];
    var s := 0;
    while s < |students|
      invariant 0 <= s <= |students| && |row| == s
      invariant forall t :: 0 <= t < s ==> row[t] == StudentKpi(groups, oa, students[t])
    {
      var k := KpiOf(groups, oa, students[s]);
      row := row + [k];
      s := s + 1;
    }
  }

  /** rows[a][s] is the tier of student s on association a. */
  predicate KpiTable(groups: seq<AssignmentGroup>, assocs: seq<OutcomeAssociation>, students: seq<string>, rows: seq<seq<Kpi>>)
    reads GroupsFootprint(groups)
  {
    && AllAssignmentsReady(groups, assocs, students)
    && |rows| == |assocs|
    && (forall a :: 0 <= a < |assocs| ==> |rows[a]| == |students|)
    && (forall a, s :: 0 <= a < |assocs| && 0 <= s < |students| ==>
          rows[a][s] == StudentKpi(groups, assocs[a], students[s]))
  }

  /** The tiers of one outcome: one row per association, one entry per student. */
  method OutcomeKpis(groups: seq<AssignmentGroup>, assocs: seq<OutcomeAssociation>, students: seq<string>)
    returns (rows: seq<seq<Kpi>>)
    requires AllAssignmentsReady(groups, assocs, students)
    ensures KpiTable(groups, assocs, students, rows)
  {
    rows := [];
    var a := 0;
    while a < |assocs|
      invariant 0 <= a <= |assocs| && |rows| == a
      invariant forall b :: 0 <= b < a ==> |rows[b]| == |students|
      invariant forall b, s :: 0 <= b < a && 0 <= s < |students| ==>
                  rows[b][s] == StudentKpi(groups, assocs[b], students[s])
    {
      assert ColumnReady(groups, assocs[a], students);
      var row := AssociationKpis(groups, assocs[a], students);
      rows := rows + [row];
      a := a + 1;
    }
  }

  /** The number of entries of ks equal to k. */
  function Count(ks: seq<Kpi>, k: Kpi): (n: nat)
    ensures n <= |ks|
  {
    if ks == [] then 0 else Count(ks[..|ks| - 1], k) + (if ks[|ks| - 1] == k then 1 else 0)
  }

  /** Every entry has exactly one tier, so the four counts add up to the length. */
  lemma {:induction false} CountPartition(ks: seq<Kpi>)
    ensures Count(ks, Exceeds) + Count(ks, Achieves) + Count(ks, Insufficient) + Count(ks, NoScore) == |ks|
  {
    if ks != [] {
      CountPartition(ks[..|ks| - 1]);
    }
  }

  /** Counting a list that is all k. */
  lemma {:induction false} CountUniform(ks: seq<Kpi>, k: Kpi, other: Kpi)
    requires forall i :: 0 <= i < |ks| ==> ks[i] == k
    requires other != k
    ensures Count(ks, k) == |ks| && Count(ks, other) == 0
  {
    if ks != [] {
      CountUniform(ks[..|ks| - 1], k, other);
    }
  }

  /** The per-student verdict: "Attained", "Not Attained" or "-". */
  datatype Verdict = Attained | NotAttained | Undecided

  /**
   * The verdict as the two sequential tests compute it on doubles: Attained
   * when demonstrated/total >= 0.70, then overwritten by Not Attained when
   * (demonstrated + unknown)/total < 0.70; with total 0 both quotients are NaN.
   */
  function VerdictOf(demonstrated: nat, unknown: nat, total: nat): (v: Verdict)
    ensures total == 0 ==> (v == Attained <==> demonstrated > 0) && v != NotAttained
    ensures total > 0 ==> (v == NotAttained <==> ((demonstrated + unknown) as real) / (total as real) < 0.70)
    ensures total > 0 && v == Attained ==> (demonstrated as real) / (total as real) >= 0.70
  {
    var v := if AtLeast(Divide(Known(demonstrated as real), total as real), 0.70) then Attained else Undecided;
    if Below(Divide(Known((demonstrated + unknown) as real), total as real), 0.70) then NotAttained else v
  }

  lemma QuotientMonotone(x: real, y: real, z: real)
    requires x <= y && z > 0.0
    ensures x / z <= y / z
  {
    assert y / z - x / z == (y - x) / z;
  }

  /**
   * With counts that fit in the total, the two tests never both pass, so
   * the overwrite never hides an attained verdict; the verdict is decided by
   * the two quotients alone, and no associations gives "-".
   */
  lemma VerdictSpec(d: nat, u: nat, t: nat)
    requires d + u <= t
    ensures VerdictOf(d, u, t) == Attained <==> t > 0 && (d as real) / (t as real) >= 0.70
    ensures VerdictOf(d, u, t) == NotAttained <==> t > 0 && ((d + u) as real) / (t as real) < 0.70
    ensures t == 0 ==> VerdictOf(d, u, t) == Undecided
  {
    if t > 0 {
      QuotientMonotone(d as real, (d + u) as real, t as real);
    }
  }

  /** The verdict of a student from the tiers of the outcome's associations. */
  function StudentVerdict(ks: seq<Kpi>): Verdict
  {
    VerdictOf(Count(ks, Exceeds) + Count(ks, Achieves), Count(ks, NoScore), |ks|)
  }

  lemma {:induction false} StudentVerdictCounts(ks: seq<Kpi>)
    ensures Count(ks, Exceeds) + Count(ks, Achieves) + Count(ks, NoScore) <= |ks|
  {
    CountPartition(ks);
  }

  /** Exceeding every association attains the outcome. */
  lemma AllExceedsAttained(ks: seq<Kpi>)
    requires |ks| > 0 && forall i :: 0 <= i < |ks| ==> ks[i] == Exceeds
    ensures StudentVerdict(ks) == Attained
  {
    CountUniform(ks, Exceeds, Achieves);
    CountUniform(ks, Exceeds, NoScore);
    StudentVerdictCounts(ks);
    VerdictSpec(Count(ks, Exceeds) + Count(ks, Achieves), Count(ks, NoScore), |ks|);
  }

  /** Insufficient on every association does not attain it. */
  lemma AllInsufficientNotAttained(ks: seq<Kpi>)
    requires |ks| > 0 && forall i :: 0 <= i < |ks| ==> ks[i] == Insufficient
    ensures StudentVerdict(ks) == NotAttained
  {
    CountUniform(ks, Insufficient, Exceeds);
    CountUniform(ks, Insufficient, Achieves);
    CountUniform(ks, Insufficient, NoScore);
    StudentVerdictCounts(ks);
    VerdictSpec(0, 0, |ks|);
  }

  /** An outcome without associations leaves every student undecided. */
  lemma NoAssociationsUndecided()
    ensures StudentVerdict([]) == Undecided
  {
    VerdictSpec(0, 0, 0);
  }

  /**
   * Math.round(x * 1000.0) / 1000.0: x to three decimals, a half rounded up
   * (Math.round is the floor of x + 0.5).
   */
  function Thousandths(x: real): (r: real)
    ensures x - 0.0005 < r <= x + 0.0005
    ensures (r * 1000.0).Floor as real == r * 1000.0
  {
    ((x * 1000.0 + 0.5).Floor as real) / 1000.0
  }

  /** Rounding keeps a value of [0, 1] in [0, 1] and never reverses the order of two values. */
  lemma ThousandthsBoundsMonotone(x: real, y: real)
    ensures 0.0 <= x <= 1.0 ==> 0.0 <= Thousandths(x) <= 1.0
    ensures x <= y ==> Thousandths(x) <= Thousandths(y)
  {
    var fx := (x * 1000.0 + 0.5).Floor;
    var fy := (y * 1000.0 + 0.5).Floor;
    if x <= y {
      assert fx as real <= y * 1000.0 + 0.5;
      assert fx <= fy;
    }
    if 0.0 <= x <= 1.0 {
      assert 0 <= fx <= 1000;
    }
  }

  /**
   * The student's outcome percent: points over maximum rounded to three
   * decimals, 1 when the maximum is 0; NaN points read as 0, which is what
   * Math.round makes of NaN.
   */
  function OutcomePercent(points: Score, max: real): (r: real)
    ensures max == 0.0 ==> r == 1.0
    ensures max != 0.0 && points.Unknown? ==> r == 0.0
    ensures max != 0.0 && points.Known? ==> points.r / max - 0.0005 < r <= points.r / max + 0.0005
  {
    if max != 0.0 then (if points.Known? then Thousandths(points.r / max) else 0.0) else 1.0
  }

  /** Points within [0, max] give a percent within [0, 1]; a zero maximum gives exactly 1. */
  lemma OutcomePercentBounds(points: Score, max: real)
    requires max >= 0.0 && (points.Known? ==> 0.0 <= points.r <= max)
    ensures 0.0 <= OutcomePercent(points, max) <= 1.0
    ensures max == 0.0 ==> OutcomePercent(points, max) == 1.0
  {
    if max != 0.0 && points.Known? {
      QuotientMonotone(0.0, points.r, max);
      QuotientMonotone(points.r, max, max);
      assert 0.0 / max == 0.0 && max / max == 1.0;
      ThousandthsBoundsMonotone(points.r / max, points.r / max);
    }
  }

  /** The average percent as the report rounds it to three decimals: a NaN average reads as 0. */
  function AveragePercentShown(avg: Score): (r: real)
    ensures avg.Unknown? ==> r == 0.0
    ensures avg.Known? ==> avg.r - 0.0005 < r <= avg.r + 0.0005
  {
    if avg.Known? then Thousandths(avg.r) else 0.0
  }

  /** The two percents of a student's line: outcome points over maximum, and the average. */
  method StudentPercents(groups: seq<AssignmentGroup>, assocs: seq<OutcomeAssociation>, student: string)
    returns (percent: real, avgPercent: real)
    requires AllReady(groups, assocs, student)
    ensures percent == OutcomePercent(OutcomePoints(groups, assocs, |groups|, student), OutcomeMax(groups, assocs, |groups|))
    ensures avgPercent == AveragePercentShown(AveragePercent(groups, assocs, student))
  {
    GroupsFootprintAllocated(groups);
    var avg := AverageOutcomePercent(groups, assocs, student);
    avgPercent := if avg.Known? then Thousandths(avg.r) else 0.0;
    var points := StudentOutcomePoints(groups, assocs, student);
    ReadyMaxReady(groups, assocs, student);
    var max := MaximumOutcomePoints(groups, assocs);
    percent := 1.0;
    if max != 0.0 {
      percent := if points.Known? then Thousandths(points.r / max) else 0.0;
    }
  }

  /** The two percents of every student's line, in student order. */
  method StudentLines(groups: seq<AssignmentGroup>, assocs: seq<OutcomeAssociation>, students: seq<string>)
    returns (percents: seq<(real, real)>)
    requires StudentsReady(groups, assocs, students)
    ensures |percents| == |students|
    ensures forall i :: 0 <= i < |students| ==> percents[i] == LineOf(groups, assocs, students[i])
  {
    GroupsFootprintAllocated(groups);
    percents := [];
    var i := 0;
    while i < |students|
      invariant 0 <= i <= |students| && |percents| == i
      invariant forall j :: 0 <= j < i ==> percents[j] == LineOf(groups, assocs, students[j])
    {
      var percent, avgPercent := StudentPercents(groups, assocs, students[i]);
      percents := percents + [(percent, avgPercent)];
      i := i + 1;
    }
  }

  /** A student's outcome percent and average percent. */
  function LineOf(groups: seq<AssignmentGroup>, assocs: seq<OutcomeAssociation>, student: string): (real, real)
    requires AllReady(groups, assocs, student)
    reads GroupsFootprint(groups)
  {
    (OutcomePercent(OutcomePoints(groups, assocs, |groups|, student), OutcomeMax(groups, assocs, |groups|)),
     AveragePercentShown(AveragePercent(groups, assocs, student)))
  }

  /** The students' lines carry their two percents. */
  predicate PercentsOf(groups: seq<AssignmentGroup>, assocs: seq<OutcomeAssociation>, students: seq<string>,
                       results: seq<StudentResult>)
    reads GroupsFootprint(groups)
  {
    && StudentsReady(groups, assocs, students)
    && |results| == |students|
    && forall s :: 0 <= s < |students| ==> (results[s].percent, results[s].avgPercent) == LineOf(groups, assocs, students[s])
  }

  /** The four bands of the class statistics: >= 0.9, >= 0.8, >= 0.7 and below. */
  datatype Band = AtLeast90 | AtLeast80 | AtLeast70 | Below70

  function BandOf(p: real): (b: Band)
    ensures b == AtLeast90 <==> p >= 0.9
    ensures b == AtLeast80 <==> 0.8 <= p < 0.9
    ensures b == AtLeast70 <==> 0.7 <= p < 0.8
    ensures b == Below70 <==> p < 0.7
  {
    if p >= 0.9 then AtLeast90 else if p >= 0.80 then AtLeast80 else if p >= 0.70 then AtLeast70 else Below70
  }

  /** What the class statistics keep of one student. */
  datatype StudentResult = StudentResult(percent: real, avgPercent: real, verdict: Verdict)

  /** The class counts of one outcome: four bands twice, and the three verdicts. */
  datatype Totals = Totals(pts: map<Band, nat>, pct: map<Band, nat>, attained: nat, notAttained: nat, unknown: nat)

  function ZeroBands(): map<Band, nat>
  {
    map[AtLeast90 := 0, AtLeast80 := 0, AtLeast70 := 0, Below70 := 0]
  }

  /** Four counts over every band. */
  predicate Banded(m: map<Band, nat>)
  {
    AtLeast90 in m && AtLeast80 in m && AtLeast70 in m && Below70 in m
  }

  function BandSum(m: map<Band, nat>): nat
    requires Banded(m)
  {
    m[AtLeast90] + m[AtLeast80] + m[AtLeast70] + m[Below70]
  }

  /** One more student in band b. */
  function Bump(m: map<Band, nat>, b: Band): (r: map<Band, nat>)
    requires Banded(m)
    ensures Banded(r) && BandSum(r) == BandSum(m) + 1
  {
    match b
    case AtLeast90 => m[AtLeast90 := m[AtLeast90] + 1]
    case AtLeast80 => m[AtLeast80 := m[AtLeast80] + 1]
    case AtLeast70 => m[AtLeast70 := m[AtLeast70] + 1]
    case Below70 => m[Below70 := m[Below70] + 1]
  }

  /** One more student with verdict v. */
  function Tally(t: Totals, r: StudentResult): (u: Totals)
    requires Banded(t.pts) && Banded(t.pct)
    ensures Banded(u.pts) && Banded(u.pct)
  {
    var attained := if r.verdict == Attained then t.attained + 1 else t.attained;
    var notAttained := if r.verdict == NotAttained then t.notAttained + 1 else t.notAttained;
    var unknown := if r.verdict == Undecided then t.unknown + 1 else t.unknown;
    Totals(Bump(t.pts, BandOf(r.percent)), Bump(t.pct, BandOf(r.avgPercent)), attained, notAttained, unknown)
  }

  /** The class counts of the students, in student order. */
  function TotalsOf(rs: seq<StudentResult>): (t: Totals)
    ensures Banded(t.pts) && Banded(t.pct)
  {
    if rs == [] then Totals(ZeroBands(), ZeroBands(), 0, 0, 0)
    else Tally(TotalsOf(rs[..|rs| - 1]), rs[|rs| - 1])
  }

  /** Each student lands in one band of each kind and has one verdict: every count set adds up to the class. */
  lemma {:induction false} TotalsPartition(rs: seq<StudentResult>)
    ensures BandSum(TotalsOf(rs).pts) == |rs| && BandSum(TotalsOf(rs).pct) == |rs|
    ensures TotalsOf(rs).attained + TotalsOf(rs).notAttained + TotalsOf(rs).unknown == |rs|
  {
    if rs != [] {
      TotalsPartition(rs[..|rs| - 1]);
    }
  }

  /** The counters one student increments: a verdict count and a band of each kind. */
  method CountStudent(t: Totals, r: StudentResult) returns (u: Totals)
    requires Banded(t.pts) && Banded(t.pct)
    ensures u == Tally(t, r)
  {
    u := t;
    match r.verdict {
      case Attained => u := u.(attained := u.attained + 1);
      case NotAttained => u := u.(notAttained := u.notAttained + 1);
      case Undecided => u := u.(unknown := u.unknown + 1);
    }
    u := u.(pts := Bump(u.pts, BandOf(r.percent)));
    u := u.(pct := Bump(u.pct, BandOf(r.avgPercent)));
  }

  /** The loop over the students of one outcome that increments the eleven counters. */
  method OutcomeTotals(rs: seq<StudentResult>) returns (t: Totals)
    ensures t == TotalsOf(rs)
  {
    t := Totals(ZeroBands(), ZeroBands(), 0, 0, 0);
    var i := 0;
    while i < |rs|
      invariant 0 <= i <= |rs|
      invariant t == TotalsOf(rs[..i])
    {
      assert rs[..i + 1][..i] == rs[..i];
      t := CountStudent(t, rs[i]);
      i := i + 1;
    }
    assert rs[..|rs|] == rs;
  }

  /** PMET: the percent of decided students who attained, or "UNKNOWN" when none was decided. */
  function AttainedShare(attained: nat, notAttained: nat): (r: Option<real>)
    ensures r.None? <==> attained + notAttained == 0
    ensures r.Some? ==> r.value * ((attained + notAttained) as real) == 100.0 * (attained as real)
  {
    if attained + notAttained == 0 then None
    else Some(100.0 * (attained as real) / ((attained + notAttained) as real))
  }

  lemma AttainedShareBounds(attained: nat, notAttained: nat)
    ensures AttainedShare(attained, notAttained).None? <==> attained == 0 && notAttained == 0
    ensures AttainedShare(attained, notAttained).Some? ==> 0.0 <= AttainedShare(attained, notAttained).value <= 100.0
  {
    if attained + notAttained > 0 {
      var d := (attained + notAttained) as real;
      QuotientMonotone(0.0, 100.0 * (attained as real), d);
      QuotientMonotone(100.0 * (attained as real), 100.0 * d, d);
    }
  }

  /** The counts of one association over the students. */
  datatype KpiTally = KpiTally(total: nat, exceeds: nat, meets: nat, insufficient: nat, unknown: nat)

  /**
   * The counts of one association: "X" counts as unknown and not in the total, so the three
   * tiers add up to the total and the total and the unknowns to the number of students.
   */
  function TallyOf(ks: seq<Kpi>): (t: KpiTally)
    ensures t.exceeds == Count(ks, Exceeds) && t.meets == Count(ks, Achieves) && t.insufficient == Count(ks, Insufficient)
    ensures t.unknown == Count(ks, NoScore)
    ensures t.exceeds + t.meets + t.insufficient == t.total
    ensures t.total + t.unknown == |ks|
  {
    CountPartition(ks);
    KpiTally(Count(ks, Exceeds) + Count(ks, Achieves) + Count(ks, Insufficient),
             Count(ks, Exceeds), Count(ks, Achieves), Count(ks, Insufficient), Count(ks, NoScore))
  }

  /**
   * One share of an association: Math.round(count * 1000.0 / total) / 10.0, the percent
   * rounded to one decimal, a half rounded up.
   */
  function RoundedShare(count: nat, total: nat): (r: real)
    requires total > 0
    ensures 100.0 * (count as real) / (total as real) - 0.05 < r <= 100.0 * (count as real) / (total as real) + 0.05
    ensures (r * 10.0).Floor as real == r * 10.0
  {
    ShareScale(count as real, total as real);
    ((count as real * 1000.0 / total as real + 0.5).Floor as real) / 10.0
  }

  /** count * 1000 / total is ten times the percent 100 * count / total. */
  lemma ShareScale(c: real, n: real)
    requires n > 0.0
    ensures c * 1000.0 / n == 10.0 * (100.0 * c / n)
  {
    var q := c / n;
    assert c == q * n;
    assert c * 1000.0 == (1000.0 * q) * n;
    assert 100.0 * c == (100.0 * q) * n;
  }

  /** Multiplying by n and dividing by n again gives back the value. */
  lemma DivideCancels(k: real, n: real)
    requires n > 0.0
    ensures k * n / n == k
  {
    var q := k * n / n;
    assert q * n == k * n;
    assert (q - k) * n == 0.0;
  }

  /** A share lies in [0, 100]: 0 for no student and exactly 100 for every student. */
  lemma RoundedShareBounds(count: nat, total: nat)
    requires 0 < total && count <= total
    ensures 0.0 <= RoundedShare(count, total) <= 100.0
    ensures count == 0 ==> RoundedShare(count, total) == 0.0
    ensures count == total ==> RoundedShare(count, total) == 100.0
  {
    var n := total as real;
    var x := count as real * 1000.0 / n;
    QuotientMonotone(0.0, count as real * 1000.0, n);
    QuotientMonotone(count as real * 1000.0, 1000.0 * n, n);
    DivideCancels(1000.0, n);
    var f := (x + 0.5).Floor;
    assert 0 <= f <= 1000;
    if count == total {
      assert x == 1000.0;
      assert f == 1000;
    }
  }

  /** The three shares of an association ("-" when no student has a known tier), in percent to one decimal. */
  function Shares(t: KpiTally): (r: Option<(real, real, real)>)
    ensures r.None? <==> t.total == 0
    ensures r.Some? ==>
              var n := t.total as real;
              100.0 * (t.exceeds as real) / n - 0.05 < r.value.0 <= 100.0 * (t.exceeds as real) / n + 0.05
              && 100.0 * (t.meets as real) / n - 0.05 < r.value.1 <= 100.0 * (t.meets as real) / n + 0.05
              && 100.0 * (t.insufficient as real) / n - 0.05 < r.value.2 <= 100.0 * (t.insufficient as real) / n + 0.05
  {
    if t.total == 0 then None
    else Some((RoundedShare(t.exceeds, t.total), RoundedShare(t.meets, t.total), RoundedShare(t.insufficient, t.total)))
  }

  lemma SharesAdd(e: real, m: real, i: real, n: real)
    requires n > 0.0 && e + m + i == n
    ensures 100.0 * e / n + 100.0 * m / n + 100.0 * i / n == 100.0
  {
    assert 100.0 * e / n + 100.0 * m / n + 100.0 * i / n == 100.0 * (e + m + i) / n;
  }

  /**
   * The shares of an association are "-" exactly when no student has a known tier; otherwise
   * each lies in [0, 100] and, each being rounded, they add up to within 0.15 of 100 percent.
   */
  lemma SharesSum(ks: seq<Kpi>)
    ensures Shares(TallyOf(ks)).None? <==> TallyOf(ks).total == 0
    ensures Shares(TallyOf(ks)).Some? ==>
              var sh := Shares(TallyOf(ks)).value;
              0.0 <= sh.0 <= 100.0 && 0.0 <= sh.1 <= 100.0 && 0.0 <= sh.2 <= 100.0
              && 100.0 - 0.15 < sh.0 + sh.1 + sh.2 <= 100.0 + 0.15
  {
    var t := TallyOf(ks);
    if t.total > 0 {
      var n := t.total as real;
      var e, m, i := t.exceeds as real, t.meets as real, t.insufficient as real;
      SharesAdd(e, m, i, n);
      RoundedShareBounds(t.exceeds, t.total);
      RoundedShareBounds(t.meets, t.total);
      RoundedShareBounds(t.insufficient, t.total);
    }
  }

  /** Rounded shares need not add up to 100: one student in each tier shows 33.3 three times. */
  lemma SharesOfThirds()
    ensures Shares(KpiTally(3, 1, 1, 1, 0)) == Some((33.3, 33.3, 33.3))
  {
    var x := 1.0 * 1000.0 / 3.0 + 0.5;
    assert x * 3.0 == 1001.5 by {
      assert 1.0 * 1000.0 / 3.0 * 3.0 == 1000.0;
    }
    assert 333.0 <= x < 334.0;
    assert x.Floor == 333;
  }

  /** The key of a KPI entry: "$+O<outcome>.S<student>.A<association>_KPI$-", numbers from 1. */
  datatype KpiKey = KpiKey(outcome: nat, student: nat, assoc: nat)

  /** The entries for associations 1..n of a student are all present. */
  predicate RowPresent(m: map<KpiKey, Kpi>, o: nat, s: nat, n: nat)
  {
    forall a :: 1 <= a <= n ==> KpiKey(o, s, a) in m
  }

  /** The tiers of a student on associations 1..n, in order. */
  function KpiRow(m: map<KpiKey, Kpi>, o: nat, s: nat, n: nat): (r: seq<Kpi>)
    requires RowPresent(m, o, s, n)
    ensures |r| == n
  {
    if n == 0 then [] else KpiRow(m, o, s, n - 1) + [m[KpiKey(o, s, n)]]
  }

  /** The entries for students 1..n on an association are all present. */
  predicate ColumnPresent(m: map<KpiKey, Kpi>, o: nat, a: nat, n: nat)
  {
    forall s :: 1 <= s <= n ==> KpiKey(o, s, a) in m
  }

  /** The tiers of students 1..n on an association, in order. */
  function KpiColumn(m: map<KpiKey, Kpi>, o: nat, a: nat, n: nat): (r: seq<Kpi>)
    requires ColumnPresent(m, o, a, n)
    ensures |r| == n
  {
    if n == 0 then [] else KpiColumn(m, o, a, n - 1) + [m[KpiKey(o, n, a)]]
  }

  /** A subset has no more elements. */
  lemma {:induction false} SubsetCard<T>(a: set<T>, b: set<T>)
    requires a <= b
    ensures |a| <= |b|
    decreases |a|
  {
    if a != {} {
      var x :| x in a;
      SubsetCard(a - {x}, b - {x});
    }
  }

  /** Every student's row of outcome o holds associations 1..assocCount and no more. */
  predicate RowsEnd(m: map<KpiKey, Kpi>, o: nat, studentCount: nat, assocCount: nat)
  {
    forall s :: 1 <= s <= studentCount ==> RowPresent(m, o, s, assocCount) && KpiKey(o, s, assocCount + 1) !in m
  }

  /** Every student's scores are defined on every association. */
  predicate StudentsReady(groups: seq<AssignmentGroup>, assocs: seq<OutcomeAssociation>, students: seq<string>)
    reads GroupsFootprint(groups)
  {
    forall s :: 0 <= s < |students| ==> AllReady(groups, assocs, students[s])
  }

  /** The KPI part of the report's symbol table. */
  class SymbolTable {
    var kpis: map<KpiKey, Kpi>

    constructor ()
      ensures kpis == map[]
    {
      kpis := map[];
    }

    /** Puts the tier of every student on one association (a from 1). */
    method PutColumn(o: nat, a: nat, row: seq<Kpi>)
      modifies this
      ensures forall s :: 1 <= s <= |row| ==> KpiKey(o, s, a) in kpis && kpis[KpiKey(o, s, a)] == row[s - 1]
      ensures forall key :: key in old(kpis) ==> key in kpis
      ensures forall key :: key in kpis && !(key.outcome == o && key.assoc == a && 1 <= key.student <= |row|) ==>
                key in old(kpis) && kpis[key] == old(kpis)[key]
    {
      var s := 1;
      while s <= |row|
        invariant 1 <= s <= |row| + 1
        invariant forall t :: 1 <= t < s ==> KpiKey(o, t, a) in kpis && kpis[KpiKey(o, t, a)] == row[t - 1]
        invariant forall key :: key in old(kpis) ==> key in kpis
        invariant forall key :: key in kpis && !(key.outcome == o && key.assoc == a && 1 <= key.student < s) ==>
                    key in old(kpis) && kpis[key] == old(kpis)[key]
      {
        kpis := kpis[KpiKey(o, s, a) := row[s - 1]];
        s := s + 1;
      }
    }

    /** The nested loops of one outcome: associations outer, students inner. */
    method PutKpis(o: nat, rows: seq<seq<Kpi>>, studentCount: nat)
      requires forall a :: 0 <= a < |rows| ==> |rows[a]| == studentCount
      modifies this
      ensures forall a, s :: 1 <= a <= |rows| && 1 <= s <= studentCount ==>
                KpiKey(o, s, a) in kpis && kpis[KpiKey(o, s, a)] == rows[a - 1][s - 1]
      ensures forall key :: key in kpis && !(key.outcome == o && 1 <= key.assoc <= |rows| && 1 <= key.student <= studentCount) ==>
                key in old(kpis) && kpis[key] == old(kpis)[key]
    {
      var a := 1;
      while a <= |rows|
        invariant 1 <= a <= |rows| + 1
        invariant forall b, s :: 1 <= b < a && 1 <= s <= studentCount ==>
                    KpiKey(o, s, b) in kpis && kpis[KpiKey(o, s, b)] == rows[b - 1][s - 1]
        invariant forall key :: key in kpis && !(key.outcome == o && 1 <= key.assoc < a && 1 <= key.student <= studentCount) ==>
                    key in old(kpis) && kpis[key] == old(kpis)[key]
      {
        PutColumn(o, a, rows[a - 1]);
        a := a + 1;
      }
    }

    /**
     * The per-student loop that reads the tiers back while the next
     * association's key is present, counting demonstrated (E or A), not
     * demonstrated (I) and unknown (anything else) tiers.
     */
    method CountKpis(o: nat, s: nat) returns (n: nat, demonstrated: nat, notDemonstrated: nat, unknown: nat)
      ensures RowPresent(kpis, o, s, n) && KpiKey(o, s, n + 1) !in kpis
      ensures demonstrated == Count(KpiRow(kpis, o, s, n), Exceeds) + Count(KpiRow(kpis, o, s, n), Achieves)
      ensures notDemonstrated == Count(KpiRow(kpis, o, s, n), Insufficient)
      ensures unknown == Count(KpiRow(kpis, o, s, n), NoScore)
    {
      n, demonstrated, notDemonstrated, unknown := 0, 0, 0, 0;
      ghost var seen: set<KpiKey> := {};
      while KpiKey(o, s, n + 1) in kpis
        invariant RowPresent(kpis, o, s, n)
        invariant seen <= kpis.Keys && |seen| == n
        invariant forall key :: key in seen ==> key.assoc <= n
        invariant demonstrated == Count(KpiRow(kpis, o, s, n), Exceeds) + Count(KpiRow(kpis, o, s, n), Achieves)
        invariant notDemonstrated == Count(KpiRow(kpis, o, s, n), Insufficient)
        invariant unknown == Count(KpiRow(kpis, o, s, n), NoScore)
        decreases |kpis.Keys| - |seen|
      {
        var k := kpis[KpiKey(o, s, n + 1)];
        match k {
          case Exceeds => demonstrated := demonstrated + 1;
          case Achieves => demonstrated := demonstrated + 1;
          case Insufficient => notDemonstrated := notDemonstrated + 1;
          case NoScore => unknown := unknown + 1;
        }
        seen := seen + {KpiKey(o, s, n + 1)};
        SubsetCard(seen, kpis.Keys);
        n := n + 1;
      }
    }

    /** The verdict of student s from the tiers read back from the table. */
    method VerdictFor(o: nat, s: nat, assocCount: nat) returns (v: Verdict)
      requires RowPresent(kpis, o, s, assocCount) && KpiKey(o, s, assocCount + 1) !in kpis
      ensures v == StudentVerdict(KpiRow(kpis, o, s, assocCount))
    {
      var total, demonstrated, notDemonstrated, unknown := CountKpis(o, s);
      RunEnd(kpis, o, s, total, assocCount);
      v := Undecided;
      if AtLeast(Divide(Known(demonstrated as real), total as real), 0.70) {
        v := Attained;
      }
      if Below(Divide(Known((demonstrated + unknown) as real), total as real), 0.70) {
        v := NotAttained;
      }
    }

    /** The students' lines of one outcome, student numbers from 1, from their two percents. */
    method StudentResults(o: nat, assocCount: nat, percents: seq<(real, real)>) returns (results: seq<StudentResult>)
      requires RowsEnd(kpis, o, |percents|, assocCount)
      ensures |results| == |percents|
      ensures forall i :: 0 <= i < |percents| ==>
                results[i] == StudentResult(percents[i].0, percents[i].1, StudentVerdict(KpiRow(kpis, o, i + 1, assocCount)))
    {
      results := [];
      var i := 0;
      while i < |percents|
        invariant 0 <= i <= |percents| && |results| == i
        invariant forall j :: 0 <= j < i ==>
                    results[j] == StudentResult(percents[j].0, percents[j].1, StudentVerdict(KpiRow(kpis, o, j + 1, assocCount)))
      {
        var v := VerdictFor(o, i + 1, assocCount);
        results := results + [StudentResult(percents[i].0, percents[i].1, v)];
        i := i + 1;
      }
    }

    /** The counts of every association of one outcome, association numbers from 1. */
    method Tallies(o: nat, assocCount: nat, studentCount: nat) returns (tallies: seq<KpiTally>)
      requires forall a :: 1 <= a <= assocCount ==> ColumnPresent(kpis, o, a, studentCount)
      ensures |tallies| == assocCount
      ensures forall a :: 1 <= a <= assocCount ==> tallies[a - 1] == TallyOf(KpiColumn(kpis, o, a, studentCount))
    {
      tallies := [];
      var a := 1;
      while a <= assocCount
        invariant 1 <= a <= assocCount + 1 && |tallies| == a - 1
        invariant forall b :: 1 <= b < a ==> tallies[b - 1] == TallyOf(KpiColumn(kpis, o, b, studentCount))
      {
        var t := AssociationTally(o, a, studentCount);
        tallies := tallies + [t];
        a := a + 1;
      }
    }

    /**
     * The table entries of one outcome (numbered o, with no entries yet):
     * the tiers of every student on every association are put, then read
     * back per student for the verdicts and per association for the counts.
     * The scores are all taken from the course before the table changes.
     */
    method ReportOutcome(o: nat, groups: seq<AssignmentGroup>, assocs: seq<OutcomeAssociation>, students: seq<string>)
      returns (rows: seq<seq<Kpi>>, results: seq<StudentResult>, totals: Totals, tallies: seq<KpiTally>)
      requires AllAssignmentsReady(groups, assocs, students) && StudentsReady(groups, assocs, students)
      requires forall key :: key in kpis ==> key.outcome != o
      modifies this
      ensures old(KpiTable(groups, assocs, students, rows))
      ensures old(PercentsOf(groups, assocs, students, results))
      ensures forall s :: 0 <= s < |students| ==> results[s].verdict == StudentVerdict(Across(rows, s))
      ensures totals == TotalsOf(results)
      ensures |tallies| == |assocs| && forall a :: 0 <= a < |assocs| ==> tallies[a] == TallyOf(rows[a])
    {
      GroupsFootprintAllocated(groups);
      rows := OutcomeKpis(groups, assocs, students);
      var percents := StudentLines(groups, assocs, students);
      PutKpis(o, rows, |students|);
      assert Written(kpis, o, rows, |students|);
      results, totals, tallies := Summarize(o, percents, rows);
    }

    /** The read-back half of an outcome: the students' lines, the class counts, the association counts. */
    method Summarize(o: nat, percents: seq<(real, real)>, rows: seq<seq<Kpi>>)
      returns (results: seq<StudentResult>, totals: Totals, tallies: seq<KpiTally>)
      requires Written(kpis, o, rows, |percents|)
      ensures |results| == |percents|
      ensures forall s :: 0 <= s < |percents| ==>
                results[s] == StudentResult(percents[s].0, percents[s].1, StudentVerdict(Across(rows, s)))
      ensures totals == TotalsOf(results)
      ensures |tallies| == |rows| && forall a :: 0 <= a < |rows| ==> tallies[a] == TallyOf(rows[a])
    {
      results := ReadVerdicts(o, percents, rows);
      totals := OutcomeTotals(results);
      tallies := ReadTallies(o, rows, |percents|);
    }

    /** The students' lines, with the verdicts read back from the table. */
    method ReadVerdicts(o: nat, percents: seq<(real, real)>, rows: seq<seq<Kpi>>) returns (results: seq<StudentResult>)
      requires Written(kpis, o, rows, |percents|)
      ensures |results| == |percents|
      ensures forall s :: 0 <= s < |percents| ==>
                results[s] == StudentResult(percents[s].0, percents[s].1, StudentVerdict(Across(rows, s)))
    {
      ReadBackRows(kpis, o, rows, |percents|);
      results := StudentResults(o, |rows|, percents);
      RowsAcross(kpis, o, rows, |percents|);
    }

    /** The counts of every association, read back from the table. */
    method ReadTallies(o: nat, rows: seq<seq<Kpi>>, studentCount: nat) returns (tallies: seq<KpiTally>)
      requires Written(kpis, o, rows, studentCount)
      ensures |tallies| == |rows| && forall a :: 0 <= a < |rows| ==> tallies[a] == TallyOf(rows[a])
    {
      ReadBackColumns(kpis, o, rows, studentCount);
      tallies := Tallies(o, |rows|, studentCount);
      ColumnsAre(kpis, o, rows, studentCount);
    }

    /** The loop over the students that counts one association's tiers. */
    method AssociationTally(o: nat, a: nat, studentCount: nat) returns (t: KpiTally)
      requires ColumnPresent(kpis, o, a, studentCount)
      ensures t == TallyOf(KpiColumn(kpis, o, a, studentCount))
    {
      t := KpiTally(0, 0, 0, 0, 0);
      var s := 0;
      while s < studentCount
        invariant 0 <= s <= studentCount
        invariant t == TallyOf(KpiColumn(kpis, o, a, s))
      {
        match kpis[KpiKey(o, s + 1, a)] {
          case Exceeds => t := t.(total := t.total + 1, exceeds := t.exceeds + 1);
          case Achieves => t := t.(total := t.total + 1, meets := t.meets + 1);
          case Insufficient => t := t.(total := t.total + 1, insufficient := t.insufficient + 1);
          case NoScore => t := t.(unknown := t.unknown + 1);
        }
        s := s + 1;
      }
    }
  }

  /** One student's tiers across the associations of a table of rows. */
  function Across(rows: seq<seq<Kpi>>, s: nat): (r: seq<Kpi>)
    requires forall a :: 0 <= a < |rows| ==> s < |rows[a]|
    ensures |r| == |rows| && forall a :: 0 <= a < |rows| ==> r[a] == rows[a][s]
  {
    seq(|rows|, a requires 0 <= a < |rows| => rows[a][s])
  }

  /**
   * The table holds rows[a - 1][s - 1] under (o, s, a) for every association
   * a and student s of the rows, and no other association of outcome o.
   */
  predicate Written(m: map<KpiKey, Kpi>, o: nat, rows: seq<seq<Kpi>>, studentCount: nat)
  {
    && (forall a :: 0 <= a < |rows| ==> |rows[a]| == studentCount)
    && (forall a, s :: 1 <= a <= |rows| && 1 <= s <= studentCount ==>
          KpiKey(o, s, a) in m && m[KpiKey(o, s, a)] == rows[a - 1][s - 1])
    && (forall key :: key in m && key.outcome == o ==> 1 <= key.assoc <= |rows|)
  }

  /** After the outcome's tiers are put, every student's row ends after the last association. */
  lemma ReadBackRows(m: map<KpiKey, Kpi>, o: nat, rows: seq<seq<Kpi>>, studentCount: nat)
    requires Written(m, o, rows, studentCount)
    ensures RowsEnd(m, o, studentCount, |rows|)
  {
    forall s | 1 <= s <= studentCount
      ensures RowPresent(m, o, s, |rows|) && KpiKey(o, s, |rows| + 1) !in m
    {
      FilledRow(m, o, s, rows, |rows|);
    }
  }

  /** After the outcome's tiers are put, every association's column is present. */
  lemma ReadBackColumns(m: map<KpiKey, Kpi>, o: nat, rows: seq<seq<Kpi>>, studentCount: nat)
    requires Written(m, o, rows, studentCount)
    ensures forall a :: 1 <= a <= |rows| ==> ColumnPresent(m, o, a, studentCount)
  {
  }

  /** Every student's row read back is the student's tiers across the rows put. */
  lemma RowsAcross(m: map<KpiKey, Kpi>, o: nat, rows: seq<seq<Kpi>>, studentCount: nat)
    requires Written(m, o, rows, studentCount)
    ensures forall s :: 0 <= s < studentCount ==> KpiRow(m, o, s + 1, |rows|) == Across(rows, s)
  {
    forall s | 0 <= s < studentCount
      ensures KpiRow(m, o, s + 1, |rows|) == Across(rows, s)
    {
      FilledRow(m, o, s + 1, rows, |rows|);
      assert Across(rows, s)[..|rows|] == Across(rows, s);
    }
  }

  /** Every association's column read back is the row put for it. */
  lemma ColumnsAre(m: map<KpiKey, Kpi>, o: nat, rows: seq<seq<Kpi>>, studentCount: nat)
    requires Written(m, o, rows, studentCount)
    ensures forall a :: 0 <= a < |rows| ==> KpiColumn(m, o, a + 1, studentCount) == rows[a]
  {
    forall a | 0 <= a < |rows|
      ensures KpiColumn(m, o, a + 1, studentCount) == rows[a]
    {
      FilledColumn(m, o, a + 1, rows[a], studentCount);
      assert rows[a][..studentCount] == rows[a];
    }
  }

  /** The row a student reads back is the one put: one entry per association, in order. */
  lemma {:induction false} FilledRow(m: map<KpiKey, Kpi>, o: nat, s: nat, rows: seq<seq<Kpi>>, n: nat)
    requires n <= |rows| && 1 <= s
    requires forall a :: 0 <= a < |rows| ==> s <= |rows[a]|
    requires forall a :: 1 <= a <= |rows| ==> KpiKey(o, s, a) in m && m[KpiKey(o, s, a)] == rows[a - 1][s - 1]
    ensures RowPresent(m, o, s, n)
    ensures KpiRow(m, o, s, n) == Across(rows, s - 1)[..n]
  {
    if n > 0 {
      FilledRow(m, o, s, rows, n - 1);
    }
  }

  /** The column an association is tallied from is the one put: one entry per student, in order. */
  lemma {:induction false} FilledColumn(m: map<KpiKey, Kpi>, o: nat, a: nat, row: seq<Kpi>, n: nat)
    requires n <= |row|
    requires forall s :: 1 <= s <= |row| ==> KpiKey(o, s, a) in m && m[KpiKey(o, s, a)] == row[s - 1]
    ensures ColumnPresent(m, o, a, n)
    ensures KpiColumn(m, o, a, n) == row[..n]
  {
    if n > 0 {
      FilledColumn(m, o, a, row, n - 1);
    }
  }

  /** The read-back loop stops exactly after the last association written for the outcome. */
  lemma RunEnd(m: map<KpiKey, Kpi>, o: nat, s: nat, n: nat, count: nat)
    requires RowPresent(m, o, s, n) && KpiKey(o, s, n + 1) !in m
    requires RowPresent(m, o, s, count) && KpiKey(o, s, count + 1) !in m
    ensures n == count
  {
  }
}
