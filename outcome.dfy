/**
 * One course outcome of the main tree (CanvasOutcome): its title, description
 * and associations, how it is read from and written to JSON, and the searches
 * over its associations.
 */
module Outcomes {
  import opened Wrappers
  import opened JavaStrings
  import opened Scores
  import opened Json
  import opened Associations
  import opened AssignmentGroupScoring
  import opened AssignmentGroupList

  /** The escaped paragraph tags Canvas leaves in an outcome description. */
  const PARAGRAPH_OPEN: string := "\\u003cp\\u003e"
  const PARAGRAPH_CLOSE: string := "\\u003c/p\\u003e"

  /** The description as the JSON constructor stores it: escaped <p> dropped, escaped </p> made a line break. */
  function CleanDescription(d: string): string
  {
    Replace(Replace(d, PARAGRAPH_OPEN, ""), PARAGRAPH_CLOSE, "\n")
  }

  /** t occurs in s at or after index 0 exactly when some suffix starts with it. */
  lemma {:induction false} ContainsPrefix(s: string, t: string, u: string)
    requires |u| <= |t| && t[..|u|] == u && JavaStrings.Contains(s, t)
    ensures JavaStrings.Contains(s, u)
    decreases |s|
  {
    if !StartsWith(s, t) {
      ContainsPrefix(s[1..], t, u);
    }
  }

  /** A description without an escaped '<' is stored unchanged. */
  lemma CleanDescriptionKeepsPlainText(d: string)
    requires !JavaStrings.Contains(d, "\\u003c")
    ensures CleanDescription(d) == d
  {
    if JavaStrings.Contains(d, PARAGRAPH_OPEN) {
      ContainsPrefix(d, PARAGRAPH_OPEN, "\\u003c");
    }
    ReplaceAbsent(d, PARAGRAPH_OPEN, "");
    if JavaStrings.Contains(d, PARAGRAPH_CLOSE) {
      ContainsPrefix(d, PARAGRAPH_CLOSE, "\\u003c");
    }
    ReplaceAbsent(d, PARAGRAPH_CLOSE, "\n");
  }

  /** A key without '.' is looked up as a whole. */
  lemma NoDotSplit(spec: string)
    requires '.' !in spec
    ensures SplitSpecifier(spec) == (spec, None)
  {
    SplitSpecifierSpec(spec);
  }

  /** The JSON keys of an association. */
  const GROUP_KEY: string := "assignment_group_name"
  const ASSIGNMENT_KEY: string := "assignment_name"
  const CRITERION_KEY: string := "rubric_criterion"
  const QUESTION_GROUP_KEY: string := "question_group"
  const QUESTION_BANK_KEY: string := "question_bank"
  const EXCEEDS_KEY: string := "exceeds_threshold"
  const DEMONSTRATES_KEY: string := "demonstrates_threshold"

  /**
   * An array element the JSON constructor can read: it has a group name, and
   * each threshold present reads as a number (getDouble would give NaN only
   * for a member that is an object holding a null under the empty key).
   */
  predicate ElementLoadable(e: Json, num: NumberSyntax)
  {
    GetValue(e, GROUP_KEY).Some?
    && (GetValue(e, EXCEEDS_KEY).Some? ==> GetDouble(e, EXCEEDS_KEY, num).Known?)
    && (GetValue(e, DEMONSTRATES_KEY).Some? ==> GetDouble(e, DEMONSTRATES_KEY, num).Known?)
  }

  /**
   * A threshold as the JSON constructor reads it: -1.0 when absent, else the
   * number getDouble reads (the NaN case is excluded by ElementLoadable and
   * given -1.0 here only to keep the function total).
   */
  function Threshold(e: Json, key: string, num: NumberSyntax): (t: real)
    ensures GetValue(e, key).None? ==> t == -1.0
    ensures GetValue(e, key).Some? && GetDouble(e, key, num).Known? ==> GetDouble(e, key, num) == Known(t)
  {
    if GetValue(e, key).None? then -1.0
    else match GetDouble(e, key, num)
      case Known(r) => r
      case Unknown => -1.0
  }

  /** f applied to each element, in order (the loops of the JSON constructor and of toJson). */
  function MapEach<A, B>(f: A -> B, xs: seq<A>): (ys: seq<B>)
    ensures |ys| == |xs|
  {
    if xs == [] then [] else MapEach(f, xs[..|xs| - 1]) + [f(xs[|xs| - 1])]
  }

  lemma {:induction false} MapEachAt<A, B>(f: A -> B, xs: seq<A>, k: nat)
    requires k < |xs|
    ensures MapEach(f, xs)[k] == f(xs[k])
    decreases |xs|
  {
    var n := |xs| - 1;
    if k < n {
      MapEachAt(f, xs[..n], k);
      assert xs[..n][k] == xs[k];
    }
  }

  /** A list that agrees with f on every element is the map of f. */
  lemma {:induction false} MapEachPointwise<A, B>(f: A -> B, xs: seq<A>, ys: seq<B>)
    requires |xs| == |ys| && forall i :: 0 <= i < |xs| ==> f(xs[i]) == ys[i]
    ensures MapEach(f, xs) == ys
    decreases |xs|
  {
    if xs != [] {
      var n := |xs| - 1;
      MapEachPointwise(f, xs[..n], ys[..n]);
      assert ys == ys[..n] + [ys[n]];
    }
  }

  /** The group name read from an element ("" stands in for the null that ElementLoadable excludes). */
  function GroupName(e: Json): string
  {
    match GetValue(e, GROUP_KEY)
    case Some(g) => g
    case None => ""
  }

  /** The seven-argument association built from one array element. */
  function AssociationFrom(e: Json, num: NumberSyntax): (a: OutcomeAssociation)
  {
    MakeAssociation(GroupName(e), GetValue(e, ASSIGNMENT_KEY), GetValue(e, CRITERION_KEY),
                    GetValue(e, QUESTION_GROUP_KEY), GetValue(e, QUESTION_BANK_KEY),
                    Threshold(e, EXCEEDS_KEY, num), Threshold(e, DEMONSTRATES_KEY, num))
  }

  /** Every element of the array is readable. */
  predicate AllLoadable(es: seq<Json>, num: NumberSyntax)
    decreases |es|
  {
    es == [] || (AllLoadable(es[..|es| - 1], num) && ElementLoadable(es[|es| - 1], num))
  }

  /** The associations read from an array, one per element, in array order. */
  function AssociationsFrom(es: seq<Json>, num: NumberSyntax): (r: seq<OutcomeAssociation>)
    ensures |r| == |es|
  {
    MapEach(e => AssociationFrom(e, num), es)
  }

  /**
   * An object the JSON constructor reads without an exception: it has a
   * description, and an "associations" member, when present, is an array of
   * readable elements.
   */
  predicate Loadable(obj: Json, num: NumberSyntax)
  {
    obj.Obj? && GetValue(obj, "description").Some?
    && ("associations" in obj.fields ==>
          obj.fields["associations"].Arr? && AllLoadable(obj.fields["associations"].elems, num))
  }

  /** The associations the JSON constructor stores: none when the member is absent. */
  function LoadedAssociations(obj: Json, num: NumberSyntax): (r: seq<OutcomeAssociation>)
    requires Loadable(obj, num)
    ensures "associations" !in obj.fields ==> r == []
    ensures "associations" in obj.fields ==> |r| == |obj.fields["associations"].elems|
  {
    if "associations" in obj.fields then AssociationsFrom(obj.fields["associations"].elems, num) else []
  }

  /** An optional name as toJson writes it: a member only when the name is present. */
  function OptionalMember(m: map<string, Json>, key: string, name: Option<string>): (r: map<string, Json>)
    ensures name.Some? ==> r == m[key := MakeValue(name.value)]
    ensures name.None? ==> r == m
  {
    if name.Some? then m[key := MakeValue(name.value)] else m
  }

  /** The five names of a selector as members: the group name always, the others only when present. */
  function SelectorMembers(s: Selector): (m: map<string, Json>)
    ensures GROUP_KEY in m && m[GROUP_KEY] == MakeValue(s.groupName)
    ensures ASSIGNMENT_KEY in m <==> s.assignmentName.Some?
    ensures CRITERION_KEY in m <==> s.rubricCriterion.Some?
    ensures QUESTION_GROUP_KEY in m <==> s.questionGroup.Some?
    ensures QUESTION_BANK_KEY in m <==> s.questionBank.Some?
    ensures s.assignmentName.Some? ==> m[ASSIGNMENT_KEY] == MakeValue(s.assignmentName.value)
    ensures s.rubricCriterion.Some? ==> m[CRITERION_KEY] == MakeValue(s.rubricCriterion.value)
    ensures s.questionGroup.Some? ==> m[QUESTION_GROUP_KEY] == MakeValue(s.questionGroup.value)
    ensures s.questionBank.Some? ==> m[QUESTION_BANK_KEY] == MakeValue(s.questionBank.value)
    ensures m.Keys <= {GROUP_KEY, ASSIGNMENT_KEY, CRITERION_KEY, QUESTION_GROUP_KEY, QUESTION_BANK_KEY}
  {
    var m0 := map[GROUP_KEY := MakeValue(s.groupName)];
    var m1 := OptionalMember(m0, ASSIGNMENT_KEY, s.assignmentName);
    var m2 := OptionalMember(m1, CRITERION_KEY, s.rubricCriterion);
    var m3 := OptionalMember(m2, QUESTION_GROUP_KEY, s.questionGroup);
    OptionalMember(m3, QUESTION_BANK_KEY, s.questionBank)
  }

  /**
   * One association as toJson writes it: the selector's members and both
   * thresholds, each as Double.toString gives it (a parameter of the model).
   */
  function AssociationJson(a: OutcomeAssociation, showDouble: real -> string): (j: Json)
    ensures j.Obj? && j.fields.Keys == SelectorMembers(a.sel).Keys + {EXCEEDS_KEY, DEMONSTRATES_KEY}
    ensures j.fields[EXCEEDS_KEY] == MakeValue(showDouble(a.exceeds))
    ensures j.fields[DEMONSTRATES_KEY] == MakeValue(showDouble(a.demonstrates))
    ensures forall k :: k in SelectorMembers(a.sel) ==> j.fields[k] == SelectorMembers(a.sel)[k]
  {
    Obj(SelectorMembers(a.sel)[EXCEEDS_KEY := MakeValue(showDouble(a.exceeds))]
                              [DEMONSTRATES_KEY := MakeValue(showDouble(a.demonstrates))])
  }

  /** The associations array: one object per association, in list order. */
  function AssociationsJson(assocs: seq<OutcomeAssociation>, showDouble: real -> string): (es: seq<Json>)
    ensures |es| == |assocs|
  {
    MapEach(a => AssociationJson(a, showDouble), assocs)
  }

  /** The whole outcome as toJson writes it. */
  function OutcomeJson(title: string, description: string, assocs: seq<OutcomeAssociation>,
                       showDouble: real -> string): (j: Json)
    ensures j.Obj? && j.fields.Keys == {"title", "description", "associations"}
    ensures j.fields["title"] == MakeValue(title) && j.fields["description"] == MakeValue(Trim(description))
    ensures j.fields["associations"] == Arr(AssociationsJson(assocs, showDouble))
  {
    Obj(map["title" := MakeValue(title), "description" := MakeValue(Trim(description)),
            "associations" := Arr(AssociationsJson(assocs, showDouble))])
  }

  /** A name the writer and the reader agree on: present names are neither empty nor "null" in any case. */
  predicate Storable(name: Option<string>)
  {
    name.Some? ==> name.value != "" && !IsNullText(name.value)
  }

  /** A threshold whose Double.toString text parses back to it. */
  predicate ThresholdReadable(x: real, showDouble: real -> string, num: NumberSyntax)
  {
    !IsNullText(showDouble(x)) && showDouble(x) in num.doubles && num.doubles[showDouble(x)] == x
  }

  /** A stored value read back through a key it is stored under. */
  lemma {:induction false} ReadMember(m: map<string, Json>, key: string, text: string)
    requires '.' !in key && key != "" && key in m && m[key] == MakeValue(text) && !IsNullText(text)
    ensures GetValue(Obj(m), key) == Some(text)
  {
    NoDotSplit(key);
  }

  /** A key the object does not have reads as null. */
  lemma {:induction false} ReadAbsent(m: map<string, Json>, key: string)
    requires '.' !in key && key != "" && key !in m && m != map[]
    ensures GetValue(Obj(m), key) == None
  {
    NoDotSplit(key);
  }

  /** An optional name written by toJson and read by the JSON constructor comes back as it was. */
  lemma {:induction false} OptionalNameBack(m: map<string, Json>, key: string, name: Option<string>)
    requires '.' !in key && key != "" && m != map[] && Storable(name)
    requires name.Some? ==> key in m && m[key] == MakeValue(name.value)
    requires name.None? ==> key !in m
    ensures Normalize(GetValue(Obj(m), key)) == name
  {
    if name.Some? {
      ReadMember(m, key, name.value);
    } else {
      ReadAbsent(m, key);
    }
  }

  /** A stored number read back through getDouble under a key it is stored under. */
  lemma {:induction false} ReadNumber(m: map<string, Json>, key: string, text: string, num: NumberSyntax)
    requires '.' !in key && key != "" && key in m && m[key] == MakeValue(text) && !IsNullText(text)
    requires text in num.doubles
    ensures GetDouble(Obj(m), key, num) == Known(num.doubles[text])
  {
    NoDotSplit(key);
    assert Step(m, key) == Some((m[key], ""));
  }

  /** An association toJson writes so that the JSON constructor reads it back. */
  predicate AssociationStorable(a: OutcomeAssociation, showDouble: real -> string, num: NumberSyntax)
  {
    Storable(Some(a.sel.groupName))
    && Storable(a.sel.assignmentName) && Storable(a.sel.rubricCriterion)
    && Storable(a.sel.questionGroup) && Storable(a.sel.questionBank)
    && ThresholdReadable(a.exceeds, showDouble, num) && ThresholdReadable(a.demonstrates, showDouble, num)
  }

  /**
   * Writing an association with toJson and reading the object back with the
   * JSON constructor gives the same association, when its names are stored
   * as given and its thresholds print as text that parses back to them.
   */
  lemma AssociationRoundTrip(a: OutcomeAssociation, showDouble: real -> string, num: NumberSyntax)
    requires AssociationStorable(a, showDouble, num)
    ensures ElementLoadable(AssociationJson(a, showDouble), num)
    ensures AssociationFrom(AssociationJson(a, showDouble), num) == a
  {
    var j := AssociationJson(a, showDouble);
    assert Written(j.fields, a, showDouble);
    ReadBack(j.fields, a, showDouble, num);
  }

  /** The members toJson writes for an association, described key by key. */
  predicate Written(m: map<string, Json>, a: OutcomeAssociation, showDouble: real -> string)
  {
    GROUP_KEY in m && m[GROUP_KEY] == MakeValue(a.sel.groupName)
    && (ASSIGNMENT_KEY in m <==> a.sel.assignmentName.Some?)
    && (CRITERION_KEY in m <==> a.sel.rubricCriterion.Some?)
    && (QUESTION_GROUP_KEY in m <==> a.sel.questionGroup.Some?)
    && (QUESTION_BANK_KEY in m <==> a.sel.questionBank.Some?)
    && (a.sel.assignmentName.Some? ==> m[ASSIGNMENT_KEY] == MakeValue(a.sel.assignmentName.value))
    && (a.sel.rubricCriterion.Some? ==> m[CRITERION_KEY] == MakeValue(a.sel.rubricCriterion.value))
    && (a.sel.questionGroup.Some? ==> m[QUESTION_GROUP_KEY] == MakeValue(a.sel.questionGroup.value))
    && (a.sel.questionBank.Some? ==> m[QUESTION_BANK_KEY] == MakeValue(a.sel.questionBank.value))
    && EXCEEDS_KEY in m && m[EXCEEDS_KEY] == MakeValue(showDouble(a.exceeds))
    && DEMONSTRATES_KEY in m && m[DEMONSTRATES_KEY] == MakeValue(showDouble(a.demonstrates))
  }

  /** An object holding an association's members, as toJson writes them, is read as that association. */
  lemma ReadBack(m: map<string, Json>, a: OutcomeAssociation, showDouble: real -> string, num: NumberSyntax)
    requires Written(m, a, showDouble) && AssociationStorable(a, showDouble, num)
    ensures ElementLoadable(Obj(m), num) && AssociationFrom(Obj(m), num) == a
  {
    ReadNames(m, a, showDouble, num);
    ReadThresholds(m, a, showDouble, num);
    ElementBack(Obj(m), a, num);
  }

  /** No association key holds a '.', so getValue looks each one up whole. */
  lemma PlainKeys()
    ensures '.' !in GROUP_KEY && '.' !in ASSIGNMENT_KEY && '.' !in CRITERION_KEY
    ensures '.' !in QUESTION_GROUP_KEY && '.' !in QUESTION_BANK_KEY
    ensures '.' !in EXCEEDS_KEY && '.' !in DEMONSTRATES_KEY
  {
  }

  /** The five names of a written association read back as stored. */
  lemma ReadNames(m: map<string, Json>, a: OutcomeAssociation, showDouble: real -> string, num: NumberSyntax)
    requires Written(m, a, showDouble) && AssociationStorable(a, showDouble, num)
    ensures GetValue(Obj(m), GROUP_KEY) == Some(a.sel.groupName)
    ensures Normalize(GetValue(Obj(m), ASSIGNMENT_KEY)) == a.sel.assignmentName
    ensures Normalize(GetValue(Obj(m), CRITERION_KEY)) == a.sel.rubricCriterion
    ensures Normalize(GetValue(Obj(m), QUESTION_GROUP_KEY)) == a.sel.questionGroup
    ensures Normalize(GetValue(Obj(m), QUESTION_BANK_KEY)) == a.sel.questionBank
  {
    PlainKeys();
    ReadMember(m, GROUP_KEY, a.sel.groupName);
    OptionalNameBack(m, ASSIGNMENT_KEY, a.sel.assignmentName);
    OptionalNameBack(m, CRITERION_KEY, a.sel.rubricCriterion);
    OptionalNameBack(m, QUESTION_GROUP_KEY, a.sel.questionGroup);
    OptionalNameBack(m, QUESTION_BANK_KEY, a.sel.questionBank);
  }

  /** Both thresholds of a written association read back as numbers equal to them. */
  lemma ReadThresholds(m: map<string, Json>, a: OutcomeAssociation, showDouble: real -> string, num: NumberSyntax)
    requires Written(m, a, showDouble) && AssociationStorable(a, showDouble, num)
    ensures GetValue(Obj(m), EXCEEDS_KEY).Some? && GetDouble(Obj(m), EXCEEDS_KEY, num) == Known(a.exceeds)
    ensures GetValue(Obj(m), DEMONSTRATES_KEY).Some? && GetDouble(Obj(m), DEMONSTRATES_KEY, num) == Known(a.demonstrates)
  {
    PlainKeys();
    ReadMember(m, EXCEEDS_KEY, showDouble(a.exceeds));
    ReadMember(m, DEMONSTRATES_KEY, showDouble(a.demonstrates));
    ReadNumber(m, EXCEEDS_KEY, showDouble(a.exceeds), num);
    ReadNumber(m, DEMONSTRATES_KEY, showDouble(a.demonstrates), num);
  }

  /** An element whose members read as an association's names and thresholds is read as that association. */
  lemma ElementBack(e: Json, a: OutcomeAssociation, num: NumberSyntax)
    requires GetValue(e, GROUP_KEY) == Some(a.sel.groupName)
    requires Normalize(GetValue(e, ASSIGNMENT_KEY)) == a.sel.assignmentName
    requires Normalize(GetValue(e, CRITERION_KEY)) == a.sel.rubricCriterion
    requires Normalize(GetValue(e, QUESTION_GROUP_KEY)) == a.sel.questionGroup
    requires Normalize(GetValue(e, QUESTION_BANK_KEY)) == a.sel.questionBank
    requires GetValue(e, EXCEEDS_KEY).Some? && GetDouble(e, EXCEEDS_KEY, num) == Known(a.exceeds)
    requires GetValue(e, DEMONSTRATES_KEY).Some? && GetDouble(e, DEMONSTRATES_KEY, num) == Known(a.demonstrates)
    ensures ElementLoadable(e, num) && AssociationFrom(e, num) == a
  {
  }

  /** Every object of a written associations array is readable. */
  lemma {:induction false} WrittenListLoadable(assocs: seq<OutcomeAssociation>, showDouble: real -> string,
                                               num: NumberSyntax)
    requires forall i :: 0 <= i < |assocs| ==> AssociationStorable(assocs[i], showDouble, num)
    ensures AllLoadable(AssociationsJson(assocs, showDouble), num)
  {
    if assocs != [] {
      var n := |assocs| - 1;
      WrittenListLoadable(assocs[..n], showDouble, num);
      AssociationRoundTrip(assocs[n], showDouble, num);
      var es := AssociationsJson(assocs, showDouble);
      assert es[..n] == AssociationsJson(assocs[..n], showDouble);
    }
  }

  /** The k-th object of the associations array is the k-th association written out. */
  lemma AssociationsJsonAt(assocs: seq<OutcomeAssociation>, showDouble: real -> string, k: nat)
    requires k < |assocs|
    ensures AssociationsJson(assocs, showDouble)[k] == AssociationJson(assocs[k], showDouble)
  {
    MapEachAt(a => AssociationJson(a, showDouble), assocs, k);
  }

  /** An array whose every element reads as the association at the same index reads as that list. */
  lemma ReadEach(es: seq<Json>, assocs: seq<OutcomeAssociation>, num: NumberSyntax)
    requires |es| == |assocs| && forall i :: 0 <= i < |es| ==> AssociationFrom(es[i], num) == assocs[i]
    ensures AssociationsFrom(es, num) == assocs
  {
    MapEachPointwise(e => AssociationFrom(e, num), es, assocs);
  }

  /** The associations array reads back as the list it was written from. */
  lemma AssociationListRoundTrip(assocs: seq<OutcomeAssociation>, showDouble: real -> string, num: NumberSyntax)
    requires forall i :: 0 <= i < |assocs| ==> AssociationStorable(assocs[i], showDouble, num)
    ensures AssociationsFrom(AssociationsJson(assocs, showDouble), num) == assocs
  {
    var es := AssociationsJson(assocs, showDouble);
    forall i | 0 <= i < |es|
      ensures AssociationFrom(es[i], num) == assocs[i]
    {
      AssociationsJsonAt(assocs, showDouble, i);
      AssociationRoundTrip(assocs[i], showDouble, num);
    }
    ReadEach(es, assocs, num);
  }

  /** The association list survives a toJson / JSON-constructor round trip, element by element and in order. */
  lemma AssociationsRoundTrip(title: string, description: string, assocs: seq<OutcomeAssociation>,
                              showDouble: real -> string, num: NumberSyntax)
    requires forall i :: 0 <= i < |assocs| ==> AssociationStorable(assocs[i], showDouble, num)
    requires !IsNullText(Trim(description))
    ensures Loadable(OutcomeJson(title, description, assocs, showDouble), num)
    ensures LoadedAssociations(OutcomeJson(title, description, assocs, showDouble), num) == assocs
  {
    PlainKeys();
    var j := OutcomeJson(title, description, assocs, showDouble);
    ReadMember(j.fields, "description", Trim(description));
    WrittenListLoadable(assocs, showDouble, num);
    AssociationListRoundTrip(assocs, showDouble, num);
  }

  /** The first association at or after `from` that matches the selector. */
  function FirstMatch(assocs: seq<OutcomeAssociation>, s: Selector, from: nat): (i: Option<nat>)
    requires from <= |assocs|
    ensures i.Some? ==> from <= i.value < |assocs| && Matches(assocs[i.value].sel, s)
                        && forall j :: from <= j < i.value ==> !Matches(assocs[j].sel, s)
    ensures i.None? <==> forall j :: from <= j < |assocs| ==> !Matches(assocs[j].sel, s)
    decreases |assocs| - from
  {
    if from == |assocs| then None
    else if Matches(assocs[from].sel, s) then Some(from)
    else FirstMatch(assocs, s, from + 1)
  }

  /** The association getAssociation returns: the first stored one that matches, or null. */
  function Lookup(assocs: seq<OutcomeAssociation>, s: Selector): (a: Option<OutcomeAssociation>)
    ensures a.Some? ==> a.value in assocs && Matches(a.value.sel, s)
    ensures a.Some? ==> exists i :: 0 <= i < |assocs| && assocs[i] == a.value && forall j :: 0 <= j < i ==> !Matches(assocs[j].sel, s)
    ensures a.None? <==> forall j :: 0 <= j < |assocs| ==> !Matches(assocs[j].sel, s)
  {
    var i := FirstMatch(assocs, s, 0);
    if i.Some? then Some(assocs[i.value]) else None
  }

  /** An association is in the course when the groups contain its group, assignment and criterion. */
  predicate InCourse(groups: seq<AssignmentGroup>, a: OutcomeAssociation)
  {
    GroupsContain(groups, a.sel.groupName, a.sel.assignmentName, a.sel.rubricCriterion)
  }

  /** What the doc comment of associationsExist promises: every association is in the course. */
  predicate AllInCourse(groups: seq<AssignmentGroup>, assocs: seq<OutcomeAssociation>)
  {
    forall i :: 0 <= i < |assocs| ==> InCourse(groups, assocs[i])
  }

  /** The check as its doc comment describes it: true exactly when every association is in the course. */
  function AllAssociationsInCourse(groups: seq<AssignmentGroup>, assocs: seq<OutcomeAssociation>): (r: bool)
    ensures r <==> AllInCourse(groups, assocs)
    decreases |assocs|
  {
    if assocs == [] then true
    else InCourse(groups, assocs[0]) && AllAssociationsInCourse(groups, assocs[1..])
  }

  /** An outcome with its title, description and associations. */
  class CanvasOutcome {
    var title: Option<string>
    var description: string
    var associations: seq<OutcomeAssociation>

    /** The blank outcome. */
    constructor ()
      ensures title == Some("") && description == "" && associations == []
    {
      title := Some("");
      description := "";
      associations := [];
    }

    /** The JSON constructor: title and cleaned description, then one association per array element. */
    constructor FromJson(obj: Json, num: NumberSyntax)
      requires Loadable(obj, num)
      ensures title == GetValue(obj, "title")
      ensures description == CleanDescription(GetValue(obj, "description").value)
      ensures associations == LoadedAssociations(obj, num)
    {
      title := GetValue(obj, "title");
      description := CleanDescription(GetValue(obj, "description").value);
      var loaded: seq<OutcomeAssociation> := [];
      if "associations" in obj.fields {
        var es := obj.fields["associations"].elems;
        var i := 0;
        while i < |es|
          invariant 0 <= i <= |es|
          invariant loaded == AssociationsFrom(es[..i], num)
        {
          assert es[..i + 1][..i] == es[..i];
          loaded := loaded + [AssociationFrom(es[i], num)];
          i := i + 1;
        }
        assert es[..|es|] == es;
      }
      associations := loaded;
    }

    /**
     * associationsExist, as written: true as soon as one association is NOT in
     * the course, false when all are (the inverse of its doc comment).
     */
    method AssociationsExist(groups: seq<AssignmentGroup>) returns (r: bool)
      ensures r <==> exists i :: 0 <= i < |associations| && !InCourse(groups, associations[i])
    {
      var i := 0;
      while i < |associations|
        invariant 0 <= i <= |associations|
        invariant forall k :: 0 <= k < i ==> InCourse(groups, associations[k])
      {
        var oa := associations[i];
        var contained := AssignmentGroupList.Contains(groups, oa.sel.groupName, oa.sel.assignmentName, oa.sel.rubricCriterion);
        if !contained {
          return true;
        }
        i := i + 1;
      }
      return false;
    }

    /** associationExists: some stored association matches the argument. */
    method AssociationExists(oa: OutcomeAssociation) returns (found: bool)
      ensures found <==> exists i :: 0 <= i < |associations| && Matches(associations[i].sel, oa.sel)
    {
      var i := 0;
      while i < |associations|
        invariant 0 <= i <= |associations|
        invariant forall k :: 0 <= k < i ==> !Matches(associations[k].sel, oa.sel)
      {
        if Matches(associations[i].sel, oa.sel) {
          return true;
        }
        i := i + 1;
      }
      return false;
    }

    /** getAssociation: the first stored association that matches, or null. */
    method GetAssociation(oa: OutcomeAssociation) returns (a: Option<OutcomeAssociation>)
      ensures a == Lookup(associations, oa.sel)
    {
      var i := 0;
      while i < |associations|
        invariant 0 <= i <= |associations|
        invariant FirstMatch(associations, oa.sel, 0) == FirstMatch(associations, oa.sel, i)
      {
        if Matches(associations[i].sel, oa.sel) {
          return Some(associations[i]);
        }
        i := i + 1;
      }
      return None;
    }

    /** toJson: title, trimmed description and the associations array built element by element. */
    method ToJson(showDouble: real -> string) returns (j: Json)
      requires title.Some?
      ensures j == OutcomeJson(title.value, description, associations, showDouble)
    {
      var elems: seq<Json> := [];
      var i := 0;
      while i < |associations|
        invariant 0 <= i <= |associations|
        invariant elems == AssociationsJson(associations[..i], showDouble)
      {
        assert associations[..i + 1][..i] == associations[..i];
        var members := SelectorMembers(associations[i].sel);
        members := members[EXCEEDS_KEY := MakeValue(showDouble(associations[i].exceeds))];
        members := members[DEMONSTRATES_KEY := MakeValue(showDouble(associations[i].demonstrates))];
        elems := elems + [Obj(members)];
        i := i + 1;
      }
      assert associations[..|associations|] == associations;
      j := Obj(map["title" := MakeValue(title.value), "description" := MakeValue(Trim(description)),
                   "associations" := Arr(elems)]);
    }

    /** setTitle. */
    method SetTitle(t: string)
      modifies this
      ensures title == Some(t) && description == old(description) && associations == old(associations)
    {
      title := Some(t);
    }

    /** setDescription. */
    method SetDescription(d: string)
      modifies this
      ensures description == d && title == old(title) && associations == old(associations)
    {
      description := d;
    }
  }

  /**
   * The inversion of associationsExist: its result is the negation of the
   * check its doc comment describes.
   */
  lemma AssociationsExistInverted(groups: seq<AssignmentGroup>, assocs: seq<OutcomeAssociation>)
    ensures (exists i :: 0 <= i < |assocs| && !InCourse(groups, assocs[i])) <==> !AllAssociationsInCourse(groups, assocs)
  {
  }

  /** getAssociation is non-null exactly when associationExists holds. */
  lemma LookupIffExists(assocs: seq<OutcomeAssociation>, s: Selector)
    ensures Lookup(assocs, s).Some? <==> exists i :: 0 <= i < |assocs| && Matches(assocs[i].sel, s)
  {
    if Lookup(assocs, s).None? {
      assert forall j :: 0 <= j < |assocs| ==> !Matches(assocs[j].sel, s);
    }
  }
}
