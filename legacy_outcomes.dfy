/**
 * The outcomes of the older canvas_ore_gr copy: an outcome whose associations
 * carry only the five names (no KPI thresholds), and the course's outcome
 * list, each read from and written to JSON.
 */
module LegacyOutcomes {
  import opened Wrappers
  import opened JavaStrings
  import opened Json
  import opened Associations
  import Outcomes
  import LegacyGroups

  /** One array element read as an association: the five names, through the five-argument constructor. */
  function SelectorFrom(e: Json): (s: Selector)
    ensures s.groupName == Outcomes.GroupName(e)
    ensures s.assignmentName == Normalize(GetValue(e, Outcomes.ASSIGNMENT_KEY))
    ensures s.rubricCriterion == Normalize(GetValue(e, Outcomes.CRITERION_KEY))
    ensures s.questionGroup == Normalize(GetValue(e, Outcomes.QUESTION_GROUP_KEY))
    ensures s.questionBank == Normalize(GetValue(e, Outcomes.QUESTION_BANK_KEY))
  {
    MakeSelector(Outcomes.GroupName(e), GetValue(e, Outcomes.ASSIGNMENT_KEY), GetValue(e, Outcomes.CRITERION_KEY),
                 GetValue(e, Outcomes.QUESTION_GROUP_KEY), GetValue(e, Outcomes.QUESTION_BANK_KEY))
  }

  /** Every element of the array has a group name. */
  predicate AllReadable(es: seq<Json>)
    decreases |es|
  {
    es == [] || (AllReadable(es[..|es| - 1]) && GetValue(es[|es| - 1], Outcomes.GROUP_KEY).Some?)
  }

  /** The associations read from an array, one per element, in array order. */
  function SelectorsFrom(es: seq<Json>): (r: seq<Selector>)
    ensures |r| == |es|
  {
    Outcomes.MapEach(SelectorFrom, es)
  }

  /**
   * An object the JSON constructor reads without an exception: it has a
   * description, and an "associations" member, when present, is an array of
   * elements that each have a group name.
   */
  predicate Loadable(obj: Json)
  {
    obj.Obj? && GetValue(obj, "description").Some?
    && ("associations" in obj.fields ==>
          obj.fields["associations"].Arr? && AllReadable(obj.fields["associations"].elems))
  }

  /** The associations the JSON constructor stores: none when the member is absent. */
  function LoadedSelectors(obj: Json): (r: seq<Selector>)
    requires Loadable(obj)
    ensures "associations" !in obj.fields ==> r == []
    ensures "associations" in obj.fields ==> |r| == |obj.fields["associations"].elems|
  {
    if "associations" in obj.fields then SelectorsFrom(obj.fields["associations"].elems) else []
  }

  /** One association as toJson writes it: the group name always, the other names when present. */
  function SelectorJson(s: Selector): (j: Json)
    ensures j.Obj? && j.fields == Outcomes.SelectorMembers(s)
  {
    Obj(Outcomes.SelectorMembers(s))
  }

  /** The associations array: one object per association, in list order. */
  function SelectorsJson(ss: seq<Selector>): (es: seq<Json>)
    ensures |es| == |ss|
  {
    Outcomes.MapEach(SelectorJson, ss)
  }

  /** The whole outcome as toJson writes it. */
  function OutcomeJson(title: string, description: string, ss: seq<Selector>): Json
  {
    Obj(map["title" := MakeValue(title), "description" := MakeValue(Trim(description)),
            "associations" := Arr(SelectorsJson(ss))])
  }

  /** A selector whose names the writer and the reader agree on. */
  predicate SelectorStorable(s: Selector)
  {
    Outcomes.Storable(Some(s.groupName))
    && Outcomes.Storable(s.assignmentName) && Outcomes.Storable(s.rubricCriterion)
    && Outcomes.Storable(s.questionGroup) && Outcomes.Storable(s.questionBank)
  }

  /** An association written by toJson is read back by the JSON constructor as the same five names. */
  lemma SelectorRoundTrip(s: Selector)
    requires SelectorStorable(s)
    ensures GetValue(SelectorJson(s), Outcomes.GROUP_KEY).Some?
    ensures SelectorFrom(SelectorJson(s)) == s
  {
    var m := Outcomes.SelectorMembers(s);
    Outcomes.PlainKeys();
    Outcomes.ReadMember(m, Outcomes.GROUP_KEY, s.groupName);
    Outcomes.OptionalNameBack(m, Outcomes.ASSIGNMENT_KEY, s.assignmentName);
    Outcomes.OptionalNameBack(m, Outcomes.CRITERION_KEY, s.rubricCriterion);
    Outcomes.OptionalNameBack(m, Outcomes.QUESTION_GROUP_KEY, s.questionGroup);
    Outcomes.OptionalNameBack(m, Outcomes.QUESTION_BANK_KEY, s.questionBank);
  }

  /** Every object of a written associations array has a group name. */
  lemma {:induction false} WrittenReadable(ss: seq<Selector>)
    requires forall i :: 0 <= i < |ss| ==> SelectorStorable(ss[i])
    ensures AllReadable(SelectorsJson(ss))
  {
    if ss != [] {
      var n := |ss| - 1;
      WrittenReadable(ss[..n]);
      SelectorRoundTrip(ss[n]);
      var es := SelectorsJson(ss);
      assert es[..n] == SelectorsJson(ss[..n]);
    }
  }

  /** The associations array reads back as the list it was written from. */
  lemma SelectorListRoundTrip(ss: seq<Selector>)
    requires forall i :: 0 <= i < |ss| ==> SelectorStorable(ss[i])
    ensures SelectorsFrom(SelectorsJson(ss)) == ss
  {
    var es := SelectorsJson(ss);
    forall i | 0 <= i < |es|
      ensures SelectorFrom(es[i]) == ss[i]
    {
      Outcomes.MapEachAt(SelectorJson, ss, i);
      SelectorRoundTrip(ss[i]);
    }
    Outcomes.MapEachPointwise(SelectorFrom, es, ss);
  }

  /**
   * An outcome written by toJson is loadable by the JSON constructor, which
   * reads back the title, the cleaned trimmed description and the same
   * associations in the same order.
   */
  lemma OutcomeRoundTrip(title: string, description: string, ss: seq<Selector>)
    requires forall i :: 0 <= i < |ss| ==> SelectorStorable(ss[i])
    requires !IsNullText(title) && !IsNullText(Trim(description))
    ensures Loadable(OutcomeJson(title, description, ss))
    ensures GetValue(OutcomeJson(title, description, ss), "title") == Some(title)
    ensures GetValue(OutcomeJson(title, description, ss), "description") == Some(Trim(description))
    ensures LoadedSelectors(OutcomeJson(title, description, ss)) == ss
  {
    var j := OutcomeJson(title, description, ss);
    Outcomes.ReadMember(j.fields, "title", title);
    Outcomes.ReadMember(j.fields, "description", Trim(description));
    WrittenReadable(ss);
    SelectorListRoundTrip(ss);
  }

  /** An association is in the course when the groups contain its group, assignment and criterion. */
  predicate InCourse(gr: LegacyGroups.Grading, groups: seq<LegacyGroups.Group>, s: Selector)
  {
    LegacyGroups.GroupsContain(gr, groups, s.groupName, s.assignmentName, s.rubricCriterion)
  }

  /** An outcome with its title (null when the JSON has none), description and associations. */
  class LegacyOutcome {
    var title: Option<string>
    var description: string
    var associations: seq<Selector>

    /** The blank outcome. */
    constructor ()
      ensures title == Some("") && description == "" && associations == []
    {
      title := Some("");
      description := "";
      associations := [];
    }

    /** The JSON constructor: title and cleaned description, then one association per array element. */
    constructor FromJson(obj: Json)
      requires Loadable(obj)
      ensures LoadedFrom(obj)
    {
      title := GetValue(obj, "title");
      description := Outcomes.CleanDescription(GetValue(obj, "description").value);
      var loaded: seq<Selector> := [];
      if "associations" in obj.fields {
        var es := obj.fields["associations"].elems;
        var i := 0;
        while i < |es|
          invariant 0 <= i <= |es|
          invariant loaded == SelectorsFrom(es[..i])
        {
          assert es[..i + 1][..i] == es[..i];
          loaded := loaded + [SelectorFrom(es[i])];
          i := i + 1;
        }
        assert es[..|es|] == es;
      }
      associations := loaded;
    }

    /** The outcome holds what the JSON constructor reads from obj. */
    predicate LoadedFrom(obj: Json)
      requires Loadable(obj)
      reads this
    {
      title == GetValue(obj, "title")
      && description == Outcomes.CleanDescription(GetValue(obj, "description").value)
      && associations == LoadedSelectors(obj)
    }

    /** associationsExist: true exactly when every association is in the course. */
    method AssociationsExist(gr: LegacyGroups.Grading, groups: seq<LegacyGroups.Group>) returns (r: bool)
      ensures r <==> forall i :: 0 <= i < |associations| ==> InCourse(gr, groups, associations[i])
    {
      var i := 0;
      while i < |associations|
        invariant 0 <= i <= |associations|
        invariant forall k :: 0 <= k < i ==> InCourse(gr, groups, associations[k])
      {
        var oa := associations[i];
        var contained := LegacyGroups.ContainsIn(gr, groups, oa.groupName, oa.assignmentName, oa.rubricCriterion);
        if !contained {
          return false;
        }
        i := i + 1;
      }
      return true;
    }

    /** associationExists: some stored association matches the argument. */
    method AssociationExists(oa: Selector) returns (found: bool)
      ensures found <==> exists i :: 0 <= i < |associations| && Matches(associations[i], oa)
    {
      var i := 0;
      while i < |associations|
        invariant 0 <= i <= |associations|
        invariant forall k :: 0 <= k < i ==> !Matches(associations[k], oa)
      {
        if Matches(associations[i], oa) {
          return true;
        }
        i := i + 1;
      }
      return false;
    }

    /** toJson: title, trimmed description and the associations array built element by element. */
    method ToJson() returns (j: Json)
      requires title.Some?
      ensures j == OutcomeJson(title.value, description, associations)
    {
      var elems: seq<Json> := [];
      var i := 0;
      while i < |associations|
        invariant 0 <= i <= |associations|
        invariant elems == SelectorsJson(associations[..i])
      {
        assert associations[..i + 1][..i] == associations[..i];
        elems := elems + [Obj(Outcomes.SelectorMembers(associations[i]))];
        i := i + 1;
      }
      assert associations[..|associations|] == associations;
      j := Obj(map["title" := MakeValue(title.value), "description" := MakeValue(Trim(description)),
                   "associations" := Arr(elems)]);
    }

    /** setTitle. */
    method SetTitle(t: string)
      modifies this
      ensures title == Some(t) && description == old(description) && associations == old(associations)
    {
      title := Some(t);
    }

    /** setDescription. */
    method SetDescription(d: string)
      modifies this
      ensures description == d && title == old(title) && associations == old(associations)
    {
      description := d;
    }
  }

  /** One outcome as toJson writes it; toJson refuses an outcome without a title, which reads here as a null value. */
  function OutcomeObject(o: LegacyOutcome): Json
    reads o
  {
    match o.title
    case Some(t) => OutcomeJson(t, o.description, o.associations)
    case None => Val(None)
  }

  /** The first n outcomes as the list's toJson writes them, one object per outcome, in list order. */
  function OutcomesJson(os: seq<LegacyOutcome>, n: nat): (es: seq<Json>)
    requires n <= |os|
    reads os
    ensures |es| == n
  {
    if n == 0 then [] else OutcomesJson(os, n - 1) + [OutcomeObject(os[n - 1])]
  }

  /** The course's outcome list as toJson writes it. */
  function ListJson(courseId: string, courseName: string, os: seq<LegacyOutcome>): Json
    reads os
  {
    Obj(map["course_id" := MakeValue(courseId), "course_name" := MakeValue(courseName),
            "outcomes" := Arr(OutcomesJson(os, |os|))])
  }

  /** Every element of the "outcomes" array is an outcome object the outcome constructor can read. */
  predicate AllOutcomesLoadable(es: seq<Json>)
  {
    forall i :: 0 <= i < |es| ==> Loadable(es[i])
  }

  /** An object the list's JSON constructor reads without an exception (null is fine). */
  predicate ListLoadable(obj: Option<Json>)
  {
    obj.Some? ==> obj.value.Obj? && ("outcomes" in obj.value.fields ==>
                    obj.value.fields["outcomes"].Arr? && AllOutcomesLoadable(obj.value.fields["outcomes"].elems))
  }

  /** A course's outcome list, with the course's Canvas id and name (null when not read). */
  class LegacyOutcomeList {
    var courseId: Option<string>
    var courseName: Option<string>
    var outcomes: seq<LegacyOutcome>

    /**
     * The JSON constructor: nothing for a null object; otherwise the course id
     * and name, then, when there is an "outcomes" array, one outcome per element.
     */
    constructor FromJson(obj: Option<Json>)
      requires ListLoadable(obj)
      ensures obj.None? ==> courseId == None && courseName == None && outcomes == []
      ensures obj.Some? ==> courseId == GetValue(obj.value, "course_id") && courseName == GetValue(obj.value, "course_name")
      ensures obj.Some? && "outcomes" !in obj.value.fields ==> outcomes == []
      ensures obj.Some? && "outcomes" in obj.value.fields ==>
                var es := obj.value.fields["outcomes"].elems;
                |outcomes| == |es| && forall i :: 0 <= i < |es| ==> outcomes[i].LoadedFrom(es[i])
    {
      if obj.None? {
        courseId, courseName, outcomes := None, None, [];
      } else {
        courseId := GetValue(obj.value, "course_id");
        courseName := GetValue(obj.value, "course_name");
        if "outcomes" in obj.value.fields {
          var loaded := LoadOutcomes(obj.value.fields["outcomes"].elems);
          outcomes := loaded;
        } else {
          outcomes := [];
        }
      }
    }

    /** setCourseId. */
    method SetCourseId(id: string)
      modifies this
      ensures courseId == Some(id) && courseName == old(courseName) && outcomes == old(outcomes)
    {
      courseId := Some(id);
    }

    /** setCourseName. */
    method SetCourseName(name: string)
      modifies this
      ensures courseName == Some(name) && courseId == old(courseId) && outcomes == old(outcomes)
    {
      courseName := Some(name);
    }

    /** toJson: the course id and name, then each outcome's toJson, in list order. */
    method ToJson() returns (j: Json)
      requires courseId.Some? && courseName.Some?
      requires forall i :: 0 <= i < |outcomes| ==> outcomes[i].title.Some?
      ensures j == ListJson(courseId.value, courseName.value, outcomes)
    {
      var elems := OutcomeObjects(outcomes);
      j := Obj(map["course_id" := MakeValue(courseId.value), "course_name" := MakeValue(courseName.value),
                   "outcomes" := Arr(elems)]);
    }
  }

  /** The list's toJson loop: each outcome's toJson, in list order. */
  method OutcomeObjects(os: seq<LegacyOutcome>) returns (elems: seq<Json>)
    requires forall i :: 0 <= i < |os| ==> os[i].title.Some?
    ensures elems == OutcomesJson(os, |os|)
  {
    elems := [];
    var i := 0;
    while i < |os|
      invariant 0 <= i <= |os|
      invariant elems == OutcomesJson(os, i)
    {
      elems := AppendOutcome(os, i, elems);
      i := i + 1;
    }
  }

  /** One step of the list's toJson loop: the i-th outcome's toJson appended. */
  method AppendOutcome(os: seq<LegacyOutcome>, i: nat, elems: seq<Json>) returns (elems': seq<Json>)
    requires i < |os| && forall k :: 0 <= k < |os| ==> os[k].title.Some?
    requires elems == OutcomesJson(os, i)
    ensures elems' == OutcomesJson(os, i + 1)
  {
    var e := os[i].ToJson();
    elems' := elems + [e];
  }

  /** The list constructor's loop: one new outcome per array element, in array order. */
  method LoadOutcomes(es: seq<Json>) returns (os: seq<LegacyOutcome>)
    requires AllOutcomesLoadable(es)
    ensures |os| == |es| && forall i :: 0 <= i < |es| ==> os[i].LoadedFrom(es[i])
  {
    os := [];
    var i := 0;
    while i < |es|
      invariant 0 <= i <= |es| && |os| == i
      invariant forall k :: 0 <= k < i ==> os[k].LoadedFrom(es[k])
    {
      var o := new LegacyOutcome.FromJson(es[i]);
      os := os + [o];
      i := i + 1;
    }
  }

  /** The course id and name written by toJson read back as they were. */
  lemma CourseRoundTrip(courseId: string, courseName: string, os: seq<LegacyOutcome>)
    requires !IsNullText(courseId) && !IsNullText(courseName)
    ensures GetValue(ListJson(courseId, courseName, os), "course_id") == Some(courseId)
    ensures GetValue(ListJson(courseId, courseName, os), "course_name") == Some(courseName)
  {
    var j := ListJson(courseId, courseName, os);
    Outcomes.ReadMember(j.fields, "course_id", courseId);
    Outcomes.ReadMember(j.fields, "course_name", courseName);
  }
}
