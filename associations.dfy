/**
 * Outcome associations: which graded item (a whole assignment group, one
 * assignment, one rubric criterion or one quiz question group/bank) an outcome
 * is measured by, and the two KPI thresholds attached to it.
 */
module Associations {
  import opened Wrappers

  /**
   * The five names of an association. The group name is required; the other
   * four are absent (Java null) when not given.
   */
  datatype Selector = Selector(
    groupName: string,
    assignmentName: Option<string>,
    rubricCriterion: Option<string>,
    questionGroup: Option<string>,
    questionBank: Option<string>)

  /** An association of the main tree: the selector plus its two KPI thresholds. */
  datatype OutcomeAssociation = OutcomeAssociation(sel: Selector, exceeds: real, demonstrates: real)

  const DEFAULT_EXCEEDS_THRESHOLD: real := 0.90
  const DEFAULT_DEMONSTRATES_THRESHOLD: real := 0.70

  /** An optional constructor argument as stored: the empty string counts as absent. */
  function Normalize(name: Option<string>): (r: Option<string>)
    ensures r.None? <==> name.None? || name.value == ""
    ensures r.Some? ==> r == name
  {
    if name.Some? && name.value != "" then name else None
  }

  /** No optional name is stored as the empty string. */
  predicate Normalized(s: Selector)
  {
    s.assignmentName != Some("") && s.rubricCriterion != Some("")
    && s.questionGroup != Some("") && s.questionBank != Some("")
  }

  /** The five-argument constructor. */
  function MakeSelector(groupName: string, assignmentName: Option<string>, rubricCriterion: Option<string>,
                        questionGroup: Option<string>, questionBank: Option<string>): (s: Selector)
    ensures s.groupName == groupName
    ensures s.assignmentName == Normalize(assignmentName) && s.rubricCriterion == Normalize(rubricCriterion)
    ensures s.questionGroup == Normalize(questionGroup) && s.questionBank == Normalize(questionBank)
    ensures Normalized(s)
  {
    Selector(groupName, Normalize(assignmentName), Normalize(rubricCriterion),
             Normalize(questionGroup), Normalize(questionBank))
  }

  /** The seven-argument constructor: the selector plus both thresholds, stored as given. */
  function MakeAssociation(groupName: string, assignmentName: Option<string>, rubricCriterion: Option<string>,
                           questionGroup: Option<string>, questionBank: Option<string>,
                           exceeds: real, demonstrates: real): (a: OutcomeAssociation)
    ensures a.sel == MakeSelector(groupName, assignmentName, rubricCriterion, questionGroup, questionBank)
    ensures a.exceeds == exceeds && a.demonstrates == demonstrates
  {
    OutcomeAssociation(MakeSelector(groupName, assignmentName, rubricCriterion, questionGroup, questionBank),
                       exceeds, demonstrates)
  }

  /** Building a selector from a stored selector's own names gives it back. */
  lemma MakeSelectorKeepsNormalized(s: Selector)
    requires Normalized(s)
    ensures MakeSelector(s.groupName, s.assignmentName, s.rubricCriterion, s.questionGroup, s.questionBank) == s
  {
  }

  /** The copy constructor: all five names are copied. */
  function Copy(s: Selector): (c: Selector)
    ensures c.groupName == s.groupName && c.assignmentName == s.assignmentName
    ensures c.rubricCriterion == s.rubricCriterion
    ensures c.questionGroup == s.questionGroup && c.questionBank == s.questionBank
  {
    Selector(s.groupName, s.assignmentName, s.rubricCriterion, s.questionGroup, s.questionBank)
  }

  /**
   * receiver.matches(other): the guard chain of the source. Assignment name and
   * rubric criterion must both be absent or equal; question group and bank
   * are only compared when the receiver sets them.
   */
  predicate Matches(receiver: Selector, other: Selector)
  {
    if receiver.groupName != other.groupName then false
    else if other.assignmentName.None? && receiver.assignmentName.Some? then false
    else if other.assignmentName.Some? && receiver.assignmentName.None? then false
    else if receiver.assignmentName.Some? && receiver.assignmentName != other.assignmentName then false
    else if other.rubricCriterion.None? && receiver.rubricCriterion.Some? then false
    else if other.rubricCriterion.Some? && receiver.rubricCriterion.None? then false
    else if receiver.rubricCriterion.Some? && receiver.rubricCriterion != other.rubricCriterion then false
    else if receiver.questionGroup.Some? && receiver.questionGroup != other.questionGroup then false
    else if receiver.questionBank.Some? && receiver.questionBank != other.questionBank then false
    else true
  }

  /** matches, as one condition: equal group, assignment and criterion; group and bank only where set on the receiver. */
  lemma MatchesIff(receiver: Selector, other: Selector)
    ensures Matches(receiver, other) <==>
      receiver.groupName == other.groupName
      && receiver.assignmentName == other.assignmentName
      && receiver.rubricCriterion == other.rubricCriterion
      && (receiver.questionGroup.None? || receiver.questionGroup == other.questionGroup)
      && (receiver.questionBank.None? || receiver.questionBank == other.questionBank)
  {
  }

  /** Every association matches itself. */
  lemma MatchesReflexive(s: Selector)
    ensures Matches(s, s)
  {
  }

  /** A copy matches its original, in both directions. */
  lemma CopyMatches(s: Selector)
    ensures Matches(Copy(s), s) && Matches(s, Copy(s))
  {
  }

  /** matches is not symmetric: a receiver without a question group accepts one that has it, not the reverse. */
  lemma MatchesNotSymmetric()
    ensures var general := Selector("Quizzes", Some("Quiz 1"), None, None, None);
            var specific := Selector("Quizzes", Some("Quiz 1"), None, Some("Group A"), None);
            Matches(general, specific) && !Matches(specific, general)
  {
  }

  /** toString: the most specific name set. */
  function ToString(s: Selector): (r: string)
    ensures s.rubricCriterion.Some? ==> r == s.rubricCriterion.value
    ensures s.rubricCriterion.None? && s.questionGroup.Some? && s.questionBank.Some? ==>
              r == s.questionGroup.value + " -- " + s.questionBank.value
    ensures s.rubricCriterion.None? && s.questionGroup.Some? && s.questionBank.None? ==> r == s.questionGroup.value
    ensures s.rubricCriterion.None? && s.questionGroup.None? && s.assignmentName.Some? ==> r == s.assignmentName.value
    ensures s.rubricCriterion.None? && s.questionGroup.None? && s.assignmentName.None? ==> r == s.groupName
  {
    if s.rubricCriterion.Some? then s.rubricCriterion.value
    else if s.questionGroup.Some? then
      if s.questionBank.Some? then s.questionGroup.value + " -- " + s.questionBank.value else s.questionGroup.value
    else if s.assignmentName.Some? then s.assignmentName.value
    else s.groupName
  }
}
