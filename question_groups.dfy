/**
 * Quiz question groups: the scoring loop a group runs over the quiz submissions,
 * the scores it stores per student, its maximum, and the first-match search over
 * a quiz's groups by group name and question bank title.
 */
module QuestionGroups {
  import opened Wrappers
  import opened Scores
  import opened JavaStrings
  import opened Associations

  /** One question of a submission: the group it was drawn from and its correct flag (None when unanswered). */
  datatype QuizQuestion = QuizQuestion(quizGroupId: string, correct: Option<string>)

  /** A quiz submission: its user, its score and kept score (NaN as Unknown) and its questions. */
  datatype QuizSubmission = QuizSubmission(id: string, userId: string, score: Score, keptScore: Score,
                                           questions: seq<QuizQuestion>)

  /** `score != kept_score` on Java doubles: only two equal known numbers are not different. */
  function ScoresDiffer(a: Score, b: Score): (d: bool)
    ensures !d <==> a.Known? && b.Known? && a.r == b.r
    ensures a.Unknown? || b.Unknown? ==> d
  {
    !(a.Known? && b.Known? && a.r == b.r)
  }

  /** A question earns the group's points when it is from the group and flagged "true" in any letter case. */
  predicate Counts(q: QuizQuestion, groupId: string)
  {
    q.quizGroupId == groupId && q.correct.Some? && EqualsIgnoreCase(q.correct.value, "true")
  }

  /** The number of questions among the first n that earn the group's points. */
  function CorrectCount(qs: seq<QuizQuestion>, groupId: string, n: nat): nat
    requires n <= |qs|
  {
    if n == 0 then 0 else CorrectCount(qs, groupId, n - 1) + (if Counts(qs[n - 1], groupId) then 1 else 0)
  }

  /** The number of questions among the first n drawn from the group. */
  function InGroupCount(qs: seq<QuizQuestion>, groupId: string, n: nat): nat
    requires n <= |qs|
  {
    if n == 0 then 0 else InGroupCount(qs, groupId, n - 1) + (if qs[n - 1].quizGroupId == groupId then 1 else 0)
  }

  /** Only the group's own questions can count, so at most that many earn points. */
  lemma {:induction false} CorrectAtMostInGroup(qs: seq<QuizQuestion>, groupId: string, n: nat)
    requires n <= |qs|
    ensures CorrectCount(qs, groupId, n) <= InGroupCount(qs, groupId, n)
  {
    if n > 0 {
      CorrectAtMostInGroup(qs, groupId, n - 1);
    }
  }

  /** Unanswered questions (a null flag) add nothing. */
  lemma {:induction false} UnansweredAddsNothing(qs: seq<QuizQuestion>, groupId: string)
    ensures CorrectCount(qs + [QuizQuestion(groupId, None)], groupId, |qs| + 1) == CorrectCount(qs, groupId, |qs|)
  {
    var qs' := qs + [QuizQuestion(groupId, None)];
    PrefixCount(qs', qs, groupId, |qs|);
  }

  /** The count over a prefix depends only on that prefix. */
  lemma {:induction false} PrefixCount(qs: seq<QuizQuestion>, prefix: seq<QuizQuestion>, groupId: string, n: nat)
    requires n <= |prefix| <= |qs| && prefix == qs[..|prefix|]
    ensures CorrectCount(qs, groupId, n) == CorrectCount(prefix, groupId, n)
  {
    if n > 0 {
      PrefixCount(qs, prefix, groupId, n - 1);
      assert qs[n - 1] == prefix[n - 1];
    }
  }

  /**
   * The scores after loading the first n submissions: a submission whose score differs from its
   * kept score is skipped; otherwise its user gets points for each counted question, overwriting
   * any earlier entry.
   */
  function LoadedScores(subs: seq<QuizSubmission>, groupId: string, points: real, n: nat): map<string, real>
    requires n <= |subs|
  {
    if n == 0 then map[]
    else if !Kept(subs[n - 1]) then LoadedScores(subs, groupId, points, n - 1)
    else LoadedScores(subs, groupId, points, n - 1)[subs[n - 1].userId := SubmissionPoints(subs[n - 1], groupId, points)]
  }

  /** The points a submission earns for the group: the question points times its counted questions. */
  function SubmissionPoints(s: QuizSubmission, groupId: string, points: real): real
  {
    points * CorrectCount(s.questions, groupId, |s.questions|) as real
  }

  /** A submission is used when its score equals its kept score. */
  predicate Kept(s: QuizSubmission)
  {
    !ScoresDiffer(s.score, s.keptScore)
  }

  /** A student has a stored score exactly when one of their submissions was kept. */
  lemma {:induction false} LoadedKeys(subs: seq<QuizSubmission>, groupId: string, points: real, n: nat, user: string)
    requires n <= |subs|
    ensures user in LoadedScores(subs, groupId, points, n) <==>
            exists j :: 0 <= j < n && Kept(subs[j]) && subs[j].userId == user
  {
    if n > 0 {
      LoadedKeys(subs, groupId, points, n - 1, user);
    }
  }

  /** The stored score of a student is the one of their last kept submission. */
  lemma {:induction false} LoadedLastWins(subs: seq<QuizSubmission>, groupId: string, points: real, n: nat, j: nat)
    requires j < n <= |subs| && Kept(subs[j])
    requires forall k :: j < k < n && Kept(subs[k]) ==> subs[k].userId != subs[j].userId
    ensures var m := LoadedScores(subs, groupId, points, n);
            subs[j].userId in m
            && m[subs[j].userId] == SubmissionPoints(subs[j], groupId, points)
  {
    if n - 1 != j {
      LoadedLastWins(subs, groupId, points, n - 1, j);
    }
  }

  /** One question group of a quiz, with the scores loaded for it per student. */
  class QuestionGroup {
    const id: string
    const name: string
    const pickCount: int
    const questionPoints: real
    /** The title of the group's question bank; present exactly when the group has a bank id. */
    const bank: Option<string>
    var studentScores: map<string, real>

    /** A group as read from the quiz, with no scores yet. */
    constructor (id: string, name: string, pickCount: int, questionPoints: real, bank: Option<string>)
      ensures this.id == id && this.name == name && this.pickCount == pickCount
      ensures this.questionPoints == questionPoints && this.bank == bank
      ensures studentScores == map[]
    {
      this.id := id;
      this.name := name;
      this.pickCount := pickCount;
      this.questionPoints := questionPoints;
      this.bank := bank;
      studentScores := map[];
    }

    /** The per-submission loop: questionPoints for every question of this group flagged "true". */
    method ScoreSubmission(qs: seq<QuizQuestion>) returns (sum: real)
      ensures sum == questionPoints * CorrectCount(qs, id, |qs|) as real
    {
      sum := 0.0;
      var i := 0;
      while i < |qs|
        invariant 0 <= i <= |qs|
        invariant sum == questionPoints * CorrectCount(qs, id, i) as real
      {
        var q := qs[i];
        assert questionPoints * (CorrectCount(qs, id, i) + 1) as real
            == questionPoints * CorrectCount(qs, id, i) as real + questionPoints;
        if q.quizGroupId == id {
          if q.correct.None? {
            // an unanswered question earns nothing
          } else if EqualsIgnoreCase(q.correct.value, "true") {
            sum := sum + questionPoints;
          }
        }
        i := i + 1;
      }
    }

    /** loadGrades: clear the scores, then score each kept submission in order. */
    method LoadGrades(subs: seq<QuizSubmission>) returns (result: bool)
      modifies this
      ensures studentScores == LoadedScores(subs, id, questionPoints, |subs|)
      ensures result
    {
      result := true;
      studentScores := map[];
      var i := 0;
      while i < |subs|
        invariant 0 <= i <= |subs|
        invariant studentScores == LoadedScores(subs, id, questionPoints, i)
      {
        var s := subs[i];
        if ScoresDiffer(s.score, s.keptScore) {
          i := i + 1;
          continue;
        }
        var sum := ScoreSubmission(s.questions);
        assert Kept(s) && sum == SubmissionPoints(s, id, questionPoints);
        studentScores := studentScores[s.userId := sum];
        i := i + 1;
      }
    }

    /** getStudentOutcomePoints: the stored score, or 0 for a student with none. */
    function StudentOutcomePoints(student: string): (points: real)
      reads this
      ensures student in studentScores ==> points == studentScores[student]
      ensures student !in studentScores ==> points == 0.0
    {
      if student in studentScores then studentScores[student] else 0.0
    }

    /** getMaximumOutcomePoints: the points of one question times the number of questions picked. */
    function MaximumOutcomePoints(): (m: real)
      ensures questionPoints >= 0.0 && pickCount >= 0 ==> m >= 0.0
      ensures pickCount == 0 ==> m == 0.0
    {
      var k := pickCount as real;
      if questionPoints >= 0.0 && pickCount >= 0 then ScaleMonotone(questionPoints, 0.0, k); questionPoints * k
      else questionPoints * k
    }
  }

  /**
   * A submission that draws at most pickCount questions from the group earns between 0 and the
   * group maximum (for non-negative question points).
   */
  lemma ScoreWithinMaximum(g: QuestionGroup, s: QuizSubmission)
    requires g.questionPoints >= 0.0
    requires InGroupCount(s.questions, g.id, |s.questions|) <= g.pickCount
    ensures 0.0 <= SubmissionPoints(s, g.id, g.questionPoints) <= g.MaximumOutcomePoints()
  {
    var c := CorrectCount(s.questions, g.id, |s.questions|);
    CorrectAtMostInGroup(s.questions, g.id, |s.questions|);
    ScaleMonotone(g.questionPoints, 0.0, c as real);
    ScaleMonotone(g.questionPoints, c as real, g.pickCount as real);
  }

  /** Multiplying by a non-negative factor keeps order. */
  lemma ScaleMonotone(k: real, a: real, b: real)
    requires k >= 0.0 && a <= b
    ensures k * a <= k * b
  {
    assert k * b - k * a == k * (b - a);
  }

  /**
   * The matching rule of the quiz's groups: the group name equals the association's question
   * group and, when the group has a bank, the bank title equals the association's question bank.
   */
  predicate GroupMatches(g: QuestionGroup, sel: Selector)
  {
    if g.bank.None? then sel.questionGroup == Some(g.name)
    else sel.questionGroup == Some(g.name) && sel.questionBank == g.bank
  }

  /** A group without a bank matches on its name alone, whatever bank the association names. */
  lemma BanklessMatchesOnName(g: QuestionGroup, sel: Selector)
    requires g.bank.None?
    ensures GroupMatches(g, sel) <==> sel.questionGroup == Some(g.name)
    ensures forall bankName :: GroupMatches(g, sel.(questionBank := bankName)) == GroupMatches(g, sel)
  {
  }

  /** The first group at or after `from` that matches the association. */
  function FirstMatch(groups: seq<QuestionGroup>, sel: Selector, from: nat): (i: Option<nat>)
    requires from <= |groups|
    ensures i.Some? ==> from <= i.value < |groups| && GroupMatches(groups[i.value], sel)
                        && forall j :: from <= j < i.value ==> !GroupMatches(groups[j], sel)
    ensures i.None? ==> forall j :: from <= j < |groups| ==> !GroupMatches(groups[j], sel)
    decreases |groups| - from
  {
    if from == |groups| then None
    else if GroupMatches(groups[from], sel) then Some(from)
    else FirstMatch(groups, sel, from + 1)
  }

  /** getById: the first group with the id, otherwise null. */
  function GetById(groups: seq<QuestionGroup>, id: string, from: nat): (g: Option<QuestionGroup>)
    requires from <= |groups|
    ensures g.Some? ==> exists i :: from <= i < |groups| && groups[i] == g.value && g.value.id == id
                                    && forall j :: from <= j < i ==> groups[j].id != id
    ensures g.None? ==> forall j :: from <= j < |groups| ==> groups[j].id != id
    decreases |groups| - from
  {
    if from == |groups| then None
    else if groups[from].id == id then Some(groups[from])
    else GetById(groups, id, from + 1)
  }

  /** getStudentOutcomePoints over the quiz's groups: the first matching group's score, or 0. */
  function StudentOutcomePoints(groups: seq<QuestionGroup>, sel: Selector, student: string): (points: real)
    reads groups
    ensures (forall j :: 0 <= j < |groups| ==> !GroupMatches(groups[j], sel)) ==> points == 0.0
    ensures FirstMatch(groups, sel, 0).Some? ==> points == groups[FirstMatch(groups, sel, 0).value].StudentOutcomePoints(student)
  {
    var i := FirstMatch(groups, sel, 0);
    if i.Some? then groups[i.value].StudentOutcomePoints(student) else 0.0
  }

  /** getMaximumOutcomePoints over the quiz's groups: the first matching group's maximum, or 0. */
  function MaximumOutcomePoints(groups: seq<QuestionGroup>, sel: Selector): (m: real)
    ensures (forall j :: 0 <= j < |groups| ==> !GroupMatches(groups[j], sel)) ==> m == 0.0
    ensures FirstMatch(groups, sel, 0).Some? ==> m == groups[FirstMatch(groups, sel, 0).value].MaximumOutcomePoints()
  {
    var i := FirstMatch(groups, sel, 0);
    if i.Some? then groups[i.value].MaximumOutcomePoints() else 0.0
  }

  /**
   * Points and maximum come from the same group: the first one that matches. With no match
   * both are 0.
   */
  lemma PointsAndMaximumAgree(groups: seq<QuestionGroup>, sel: Selector, student: string)
    ensures (forall j :: 0 <= j < |groups| ==> !GroupMatches(groups[j], sel)) ==>
              StudentOutcomePoints(groups, sel, student) == 0.0 && MaximumOutcomePoints(groups, sel) == 0.0
    ensures (exists j :: 0 <= j < |groups| && GroupMatches(groups[j], sel)) ==>
              exists i :: 0 <= i < |groups| && GroupMatches(groups[i], sel)
                          && (forall j :: 0 <= j < i ==> !GroupMatches(groups[j], sel))
                          && StudentOutcomePoints(groups, sel, student) == groups[i].StudentOutcomePoints(student)
                          && MaximumOutcomePoints(groups, sel) == groups[i].MaximumOutcomePoints()
  {
    var i := FirstMatch(groups, sel, 0);
    if i.Some? {
      assert GroupMatches(groups[i.value], sel);
    }
  }
}
