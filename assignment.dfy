/**
 * Canvas assignments: the grades recorded per student from the submissions, the
 * points an assignment, one of its rubric criteria or one of its quiz question
 * groups contributes to an outcome, and the name lookups over an assignment list.
 */
module Assignments {
  import opened Wrappers
  import opened Scores
  import opened Associations
  import opened Rubric
  import opened QuestionGroups

  /** A submission as loaded: its user, whether its grade is the current one, its score (NaN as Unknown) and rubric scores. */
  datatype Submission = Submission(userId: string, gradeMatches: bool, score: Score, rubricScores: map<string, real>)

  /**
   * Whether the grade-recording loop stores a submission: its grade must match, and when a team
   * set is loaded and students are not graded individually, its user must belong to a team.
   */
  predicate Records(s: Submission, teams: Option<set<string>>, individually: bool)
  {
    s.gradeMatches && (teams.None? || individually || s.userId in teams.value)
  }

  /** The grades after recording the first n submissions on cleared grades. */
  function RecordedGrades(subs: seq<Submission>, teams: Option<set<string>>, individually: bool, n: nat): map<string, Score>
    requires n <= |subs|
  {
    if n == 0 then map[]
    else if !Records(subs[n - 1], teams, individually) then RecordedGrades(subs, teams, individually, n - 1)
    else RecordedGrades(subs, teams, individually, n - 1)[subs[n - 1].userId := subs[n - 1].score]
  }

  /** The rubric scores after recording the first n submissions on top of m (rubric scores are not cleared). */
  function RecordedRubricScores(m: map<string, map<string, real>>, subs: seq<Submission>, teams: Option<set<string>>,
                                individually: bool, n: nat): map<string, map<string, real>>
    requires n <= |subs|
  {
    if n == 0 then m
    else if !Records(subs[n - 1], teams, individually) then RecordedRubricScores(m, subs, teams, individually, n - 1)
    else ScoresAfter(RecordedRubricScores(m, subs, teams, individually, n - 1), subs[n - 1].userId, subs[n - 1].rubricScores)
  }

  /** A student has a grade exactly when one of their submissions was recorded. */
  lemma {:induction false} RecordedKeys(subs: seq<Submission>, teams: Option<set<string>>, individually: bool, n: nat, user: string)
    requires n <= |subs|
    ensures user in RecordedGrades(subs, teams, individually, n) <==>
            exists j :: 0 <= j < n && Records(subs[j], teams, individually) && subs[j].userId == user
  {
    if n > 0 {
      RecordedKeys(subs, teams, individually, n - 1, user);
    }
  }

  /** A student's grade is the score of their last recorded submission. */
  lemma {:induction false} RecordedLastWins(subs: seq<Submission>, teams: Option<set<string>>, individually: bool, n: nat, j: nat)
    requires j < n <= |subs| && Records(subs[j], teams, individually)
    requires forall k :: j < k < n && Records(subs[k], teams, individually) ==> subs[k].userId != subs[j].userId
    ensures var g := RecordedGrades(subs, teams, individually, n);
            subs[j].userId in g && g[subs[j].userId] == subs[j].score
  {
    if n - 1 != j {
      RecordedLastWins(subs, teams, individually, n - 1, j);
    }
  }

  /** With a team set and no individual grading, only team members get a grade; submissions whose grade does not match never count. */
  lemma TeamFilter(subs: seq<Submission>, teams: set<string>, individually: bool, user: string)
    ensures !individually && user in RecordedGrades(subs, Some(teams), individually, |subs|) ==> user in teams
    ensures user in RecordedGrades(subs, Some(teams), individually, |subs|) ==>
              exists j :: 0 <= j < |subs| && subs[j].gradeMatches && subs[j].userId == user
  {
    RecordedKeys(subs, Some(teams), individually, |subs|, user);
  }

  /**
   * The recording loop only hands rubric scores to a rubric that has its score maps: a rubric
   * built without an array receives only empty score maps.
   */
  predicate RubricTakes(a: Assignment, subs: seq<Submission>, teams: Option<set<string>>)
  {
    a.rubric.loaded
    || forall i :: 0 <= i < |subs| && Records(subs[i], teams, a.gradeIndividually) ==> subs[i].rubricScores == map[]
  }

  /** The association asks for the whole assignment: it is null, or names neither a rubric criterion nor a question group. */
  predicate WholeItem(oa: Option<Selector>)
  {
    oa.None? || (oa.value.rubricCriterion.None? && oa.value.questionGroup.None?)
  }

  /** The rubric rescaling: 0 for a zero rubric sum, else the raw criterion score times grade / sum. */
  function Rescaled(raw: real, grade: Score, sum: real): (s: Score)
    ensures sum == 0.0 ==> s == Known(0.0)
    ensures sum != 0.0 && grade.Unknown? ==> s == Unknown
    ensures sum != 0.0 && grade.Known? ==> s == Known(raw * (grade.r / sum))
  {
    if sum == 0.0 then Known(0.0)
    else if grade.Unknown? then Unknown
    else Known(raw * (grade.r / sum))
  }

  /** When the grade equals the rubric sum, rescaling leaves the raw score unchanged. */
  lemma RescaledIdentity(raw: real, sum: real)
    requires sum != 0.0
    ensures Rescaled(raw, Known(sum), sum) == Known(raw)
  {
    assert sum / sum == 1.0;
  }

  /** One assignment of a course, with the grades recorded for it per student. */
  class Assignment {
    const name: string
    const id: string
    const pointsPossible: real
    const rubric: CanvasRubric
    const isQuiz: bool
    const gradeIndividually: bool
    /** The question groups of the assignment's quiz; none when it is not a quiz. */
    const questionGroups: seq<QuestionGroup>
    var grades: map<string, Score>

    /** An assignment as read from Canvas: it is a quiz exactly when its submission type is "online_quiz". */
    constructor (name: string, id: string, pointsPossible: real, rubric: CanvasRubric, submissionTypes: string,
                 gradeIndividually: bool, quizGroups: seq<QuestionGroup>)
      ensures this.name == name && this.id == id && this.pointsPossible == pointsPossible
      ensures this.rubric == rubric && this.gradeIndividually == gradeIndividually
      ensures isQuiz <==> submissionTypes == "online_quiz"
      ensures questionGroups == if isQuiz then quizGroups else []
      ensures grades == map[]
    {
      this.name := name;
      this.id := id;
      this.pointsPossible := pointsPossible;
      this.rubric := rubric;
      this.gradeIndividually := gradeIndividually;
      isQuiz := submissionTypes == "online_quiz";
      questionGroups := if submissionTypes == "online_quiz" then quizGroups else [];
      grades := map[];
    }

    /**
     * The grade-recording loop of loadGrades: clear the grades, then for each submission whose
     * grade matches (and, with teams loaded and no individual grading, whose user has a team)
     * store its score and its rubric scores. Later submissions overwrite earlier ones.
     */
    method LoadGrades(subs: seq<Submission>, teams: Option<set<string>>) returns (result: bool)
      requires RubricTakes(this, subs, teams)
      modifies this, rubric
      ensures grades == RecordedGrades(subs, teams, gradeIndividually, |subs|)
      ensures rubric.studentScores == RecordedRubricScores(old(rubric.studentScores), subs, teams, gradeIndividually, |subs|)
      ensures rubric.studentKpiRatings == old(rubric.studentKpiRatings)
      ensures result
    {
      result := true;
      grades := map[];
      var i := 0;
      while i < |subs|
        invariant 0 <= i <= |subs|
        invariant grades == RecordedGrades(subs, teams, gradeIndividually, i)
        invariant rubric.studentScores == RecordedRubricScores(old(rubric.studentScores), subs, teams, gradeIndividually, i)
        invariant rubric.studentKpiRatings == old(rubric.studentKpiRatings)
      {
        var s := subs[i];
        if !s.gradeMatches {
          i := i + 1;
          continue;
        }
        if teams.Some? && !gradeIndividually {
          if s.userId in teams.value {
            grades := grades[s.userId := s.score];
            rubric.SetRubricScores(s.userId, s.rubricScores);
          }
        } else {
          grades := grades[s.userId := s.score];
          rubric.SetRubricScores(s.userId, s.rubricScores);
        }
        i := i + 1;
      }
    }

    /** The whole-assignment score of a student: the recorded grade, or a known 0 without one. */
    function Grade(student: string): (s: Score)
      reads this
      ensures student in grades ==> s == grades[student]
      ensures student !in grades ==> s == Known(0.0)
    {
      if student in grades then grades[student] else Known(0.0)
    }

    /**
     * getStudentOutcomePoints dereferences neither the score maps of a rubric built without an
     * array nor a missing rubric score.
     */
    predicate PointsDefined(oa: Option<Selector>, student: string)
      reads this, rubric
    {
      (oa.Some? && oa.value.rubricCriterion.Some? && student in grades)
      ==> rubric.loaded && (rubric.PointSum(student) != 0.0 ==> rubric.ScoreRecorded(oa.value.rubricCriterion.value, student))
    }

    /**
     * getStudentOutcomePoints: a known 0 for a student without a grade; the grade for the whole
     * assignment; the rescaled criterion score for a rubric criterion; the question groups'
     * score for a question group of a quiz, and 0 on any other assignment.
     */
    function StudentOutcomePoints(oa: Option<Selector>, student: string): (s: Score)
      requires PointsDefined(oa, student)
      reads this, rubric, questionGroups
      ensures student !in grades ==> s == Known(0.0)
      ensures WholeItem(oa) ==> s == Grade(student)
      ensures student in grades && !WholeItem(oa) && oa.value.rubricCriterion.Some? && rubric.PointSum(student) == 0.0 ==>
                s == Known(0.0)
      ensures student in grades && !WholeItem(oa) && oa.value.rubricCriterion.Some? && rubric.PointSum(student) != 0.0 ==>
                s == Rescaled(rubric.StudentOutcomePoints(oa.value.rubricCriterion.value, student), grades[student],
                              rubric.PointSum(student))
      ensures student in grades && !WholeItem(oa) && oa.value.rubricCriterion.None? ==>
                s == if isQuiz then Known(QuestionGroups.StudentOutcomePoints(questionGroups, oa.value, student)) else Known(0.0)
    {
      if WholeItem(oa) then Grade(student)
      else if student !in grades then Known(0.0)
      else if oa.value.rubricCriterion.Some? then
        var sum := rubric.PointSum(student);
        if sum == 0.0 then Known(0.0)
        else Rescaled(rubric.StudentOutcomePoints(oa.value.rubricCriterion.value, student), grades[student], sum)
      else if isQuiz then Known(QuestionGroups.StudentOutcomePoints(questionGroups, oa.value, student))
      else Known(0.0)
    }

    /** getMaximumOutcomePoints does not dereference the missing quiz of a non-quiz assignment. */
    predicate MaxDefined(oa: Option<Selector>)
    {
      WholeItem(oa) || oa.value.rubricCriterion.Some? || isQuiz
    }

    /**
     * getMaximumOutcomePoints: points possible for the whole assignment, the criterion's row
     * points for a rubric criterion, the question groups' maximum for a question group.
     */
    function MaximumOutcomePoints(oa: Option<Selector>): (m: real)
      requires MaxDefined(oa)
      ensures WholeItem(oa) ==> m == pointsPossible
      ensures !WholeItem(oa) && oa.value.rubricCriterion.Some? ==> m == rubric.MaximumOutcomePoints(oa.value.rubricCriterion.value)
      ensures !WholeItem(oa) && oa.value.rubricCriterion.None? ==> m == QuestionGroups.MaximumOutcomePoints(questionGroups, oa.value)
    {
      if WholeItem(oa) then pointsPossible
      else if oa.value.rubricCriterion.Some? then rubric.MaximumOutcomePoints(oa.value.rubricCriterion.value)
      else QuestionGroups.MaximumOutcomePoints(questionGroups, oa.value)
    }

    /** contains: the rubric has a criterion of that name. */
    function Contains(criterion: string): (found: bool)
      ensures found <==> exists j :: 0 <= j < |rubric.rows| && rubric.rows[j].description == criterion
    {
      rubric.Contains(criterion)
    }
  }

  /** A student without a grade scores a known 0 whatever the association asks for. */
  lemma MissingStudentScoresZero(a: Assignment, oa: Option<Selector>, student: string)
    requires student !in a.grades
    ensures a.PointsDefined(oa, student)
    ensures a.StudentOutcomePoints(oa, student) == Known(0.0)
  {
  }

  /** A rubric criterion scores 0 when the student's rubric point sum is 0, whatever the grade. */
  lemma ZeroRubricSumScoresZero(a: Assignment, sel: Selector, student: string)
    requires sel.rubricCriterion.Some? && a.rubric.loaded && a.rubric.PointSum(student) == 0.0
    ensures a.PointsDefined(Some(sel), student)
    ensures a.StudentOutcomePoints(Some(sel), student) == Known(0.0)
  {
  }

  /** When a student's grade equals their rubric point sum, each criterion scores its raw rubric score. */
  lemma GradeEqualToSumKeepsRawScores(a: Assignment, sel: Selector, student: string)
    requires sel.rubricCriterion.Some? && student in a.grades
    requires a.PointsDefined(Some(sel), student)
    requires a.rubric.PointSum(student) != 0.0 && a.grades[student] == Known(a.rubric.PointSum(student))
    ensures a.StudentOutcomePoints(Some(sel), student) == Known(a.rubric.StudentOutcomePoints(sel.rubricCriterion.value, student))
  {
    RescaledIdentity(a.rubric.StudentOutcomePoints(sel.rubricCriterion.value, student), a.rubric.PointSum(student));
  }

  /** A question-group association on an assignment that is not a quiz scores 0. */
  lemma NonQuizQuestionGroupScoresZero(a: Assignment, sel: Selector, student: string)
    requires !a.isQuiz && sel.rubricCriterion.None? && sel.questionGroup.Some?
    ensures a.PointsDefined(Some(sel), student)
    ensures a.StudentOutcomePoints(Some(sel), student) == Known(0.0)
  {
  }

  /** The first assignment at or after `from` with the name. */
  function FirstNamed(xs: seq<Assignment>, name: string, from: nat): (i: Option<nat>)
    requires from <= |xs|
    ensures i.Some? ==> from <= i.value < |xs| && xs[i.value].name == name
                        && forall j :: from <= j < i.value ==> xs[j].name != name
    ensures i.None? ==> forall j :: from <= j < |xs| ==> xs[j].name != name
    decreases |xs| - from
  {
    if from == |xs| then None
    else if xs[from].name == name then Some(from)
    else FirstNamed(xs, name, from + 1)
  }

  /** getIndexByName: the index of the first assignment with the name, or -1. */
  method IndexByName(xs: seq<Assignment>, name: string) returns (index: int)
    ensures -1 <= index < |xs|
    ensures index == -1 <==> forall j :: 0 <= j < |xs| ==> xs[j].name != name
    ensures index >= 0 ==> xs[index].name == name && forall j :: 0 <= j < index ==> xs[j].name != name
  {
    var i := 0;
    while i < |xs|
      invariant 0 <= i <= |xs|
      invariant forall j :: 0 <= j < i ==> xs[j].name != name
    {
      if xs[i].name == name {
        return i;
      }
      i := i + 1;
    }
    return -1;
  }

  /** getAssignmentByName: the first assignment with the name, or null. */
  method AssignmentByName(xs: seq<Assignment>, name: string) returns (a: Option<Assignment>)
    ensures a == (var i := FirstNamed(xs, name, 0); if i.Some? then Some(xs[i.value]) else None)
  {
    var i := 0;
    while i < |xs|
      invariant 0 <= i <= |xs|
      invariant FirstNamed(xs, name, 0) == FirstNamed(xs, name, i)
    {
      if xs[i].name == name {
        return Some(xs[i]);
      }
      i := i + 1;
    }
    return None;
  }

  /** The assignment named `name`, as the lookups find it. */
  function Named(xs: seq<Assignment>, name: string): (a: Option<Assignment>)
    ensures a.Some? ==> a.value in xs && a.value.name == name
    ensures a.Some? ==> exists i :: 0 <= i < |xs| && xs[i] == a.value && forall j :: 0 <= j < i ==> xs[j].name != name
    ensures a.None? <==> forall j :: 0 <= j < |xs| ==> xs[j].name != name
  {
    var i := FirstNamed(xs, name, 0);
    if i.Some? then Some(xs[i.value]) else None
  }

  /** getAssignmentByName is null exactly when getIndexByName is -1, and otherwise the element at that index. */
  lemma LookupsAgree(xs: seq<Assignment>, name: string, index: int)
    requires -1 <= index < |xs|
    requires index == -1 <==> forall j :: 0 <= j < |xs| ==> xs[j].name != name
    requires index >= 0 ==> xs[index].name == name && forall j :: 0 <= j < index ==> xs[j].name != name
    ensures Named(xs, name).None? <==> index == -1
    ensures index >= 0 ==> Named(xs, name) == Some(xs[index])
  {
    var i := FirstNamed(xs, name, 0);
    if index >= 0 {
      assert i.Some? && i.value == index;
    }
  }

  /** The submissions fetched for an assignment id; none when nothing was fetched. */
  function FetchedFor(fetched: map<string, seq<Submission>>, id: string): seq<Submission>
  {
    if id in fetched then fetched[id] else []
  }

  /** The grades an assignment holds once loadGrades has recorded the submissions fetched for it. */
  function LoadedGrades(a: Assignment, fetched: map<string, seq<Submission>>, teams: Option<set<string>>)
    : map<string, Score>
  {
    RecordedGrades(FetchedFor(fetched, a.id), teams, a.gradeIndividually, |FetchedFor(fetched, a.id)|)
  }

  /**
   * Assignments.loadGrades: load every assignment's grades; the result starts true and is only
   * OR-ed, so it is true. Afterwards every assignment of the list holds the grades recorded from
   * its own submissions, even when the same assignment appears twice.
   */
  method LoadGrades(xs: seq<Assignment>, fetched: map<string, seq<Submission>>, teams: Option<set<string>>)
    returns (result: bool)
    requires forall a :: a in xs ==> RubricTakes(a, FetchedFor(fetched, a.id), teams)
    modifies set a | a in xs, set a | a in xs :: a.rubric
    ensures forall a :: a in xs ==> a.grades == LoadedGrades(a, fetched, teams)
    ensures result
  {
    result := true;
    var i := 0;
    while i < |xs|
      invariant 0 <= i <= |xs|
      invariant forall k :: 0 <= k < i ==> xs[k].grades == LoadedGrades(xs[k], fetched, teams)
      invariant result
    {
      var loaded := xs[i].LoadGrades(FetchedFor(fetched, xs[i].id), teams);
      result := result || loaded;
      i := i + 1;
    }
  }
}
