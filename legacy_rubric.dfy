/**
 * The rubric of the older canvas_ore_gr copy: rows of rating cells ordered by
 * points, the per-student row scores (a map that only exists when the rubric
 * was built from an array), lookups by criterion name, and the positional
 * accessors of the rows.
 */
module LegacyRubric {
  import opened Wrappers
  import opened JavaStrings
  import opened Json
  import opened Rubric
  import Outcomes

  /** The key the cell constructor reads its long description from. */
  const LONG_DESCRIPTION_KEY: string := "long_description"
  /** The key the row constructor reads its long description from: the same word, misspelt. */
  const ROW_LONG_DESCRIPTION_KEY: string := "long_descripion"

  lemma PlainKeys()
    ensures '.' !in LONG_DESCRIPTION_KEY && '.' !in ROW_LONG_DESCRIPTION_KEY
    ensures LONG_DESCRIPTION_KEY != ROW_LONG_DESCRIPTION_KEY
  {
    assert LONG_DESCRIPTION_KEY[13] != ROW_LONG_DESCRIPTION_KEY[13];
  }

  /** The row's long description as the row constructor reads it. */
  function RowLongDescription(obj: Json): Option<string>
  {
    GetValue(obj, ROW_LONG_DESCRIPTION_KEY)
  }

  /** The row's long description read from the key the cells use, as evidently intended. */
  function IntendedRowLongDescription(obj: Json): Option<string>
  {
    GetValue(obj, LONG_DESCRIPTION_KEY)
  }

  /**
   * A criterion object as Canvas sends it, with a "long_description" member
   * and no misspelt one: the row constructor reads null where the intended
   * reading gives the text.
   */
  lemma MisspeltKeyDropsLongDescription(m: map<string, Json>, text: string)
    requires ROW_LONG_DESCRIPTION_KEY !in m
    requires LONG_DESCRIPTION_KEY in m && m[LONG_DESCRIPTION_KEY] == MakeValue(text) && !IsNullText(text)
    ensures RowLongDescription(Obj(m)) == None
    ensures IntendedRowLongDescription(Obj(m)) == Some(text)
  {
    PlainKeys();
    Outcomes.ReadAbsent(m, ROW_LONG_DESCRIPTION_KEY);
    Outcomes.ReadMember(m, LONG_DESCRIPTION_KEY, text);
  }

  /** A rubric row: the criterion's data and its cells, non-increasing in points. */
  class LegacyRow {
    const points: real
    const id: string
    const description: string
    const longDescription: Option<string>
    const cells: seq<RubricCell>

    /** The JSON constructor: the criterion's data, then each rating added with addOrdered, in array order. */
    constructor (points: real, id: string, description: string, longDescription: Option<string>,
                 ratings: seq<RubricCell>)
      ensures this.points == points && this.id == id && this.description == description
      ensures this.longDescription == longDescription
      ensures cells == InsertAll(ratings)
      ensures NonIncreasing(cells) && multiset(cells) == multiset(ratings)
    {
      this.points := points;
      this.id := id;
      this.description := description;
      this.longDescription := longDescription;
      var built := AddAllOrdered(ratings);
      cells := built;
    }
  }

  /** Where a positional index lands in a list of n items. */
  datatype Slot = At(index: nat) | Beyond | Invalid

  /**
   * The accessors' guard as written: only an index above the size is answered
   * with a default, so the index equal to the size reaches the list and throws.
   */
  function SlotAsWritten(n: nat, i: int): Slot
  {
    if i > n then Beyond else if 0 <= i < n then At(i) else Invalid
  }

  /** The guard as evidently intended: every index at or past the end is answered with a default. */
  function SlotOf(n: nat, i: int): (s: Slot)
    ensures s.At? <==> 0 <= i < n
    ensures s.At? ==> s.index == i
    ensures s.Beyond? <==> i >= n
    ensures s.Invalid? <==> i < 0
  {
    if i >= n then Beyond else if i >= 0 then At(i) else Invalid
  }

  /** The guard is off by one: at index n the written guard throws where the intended one gives the default. */
  lemma SlotOffByOne(n: nat)
    ensures SlotAsWritten(n, n) == Invalid
    ensures SlotOf(n, n) == Beyond
  {
  }

  /** Away from that one index the two guards agree. */
  lemma SlotsAgreeElsewhere(n: nat, i: int)
    requires i != n
    ensures SlotAsWritten(n, i) == SlotOf(n, i)
  {
  }

  /** An accessor's answer: a value (the default included), or an IndexOutOfBoundsException. */
  datatype Access<T> = Got(value: T) | Throws

  /** The first row at or after `from` whose description is name. */
  function RowNamedFrom(rows: seq<LegacyRow>, name: string, from: nat): (i: Option<nat>)
    requires from <= |rows|
    ensures i.Some? ==> from <= i.value < |rows| && rows[i.value].description == name
                        && forall j :: from <= j < i.value ==> rows[j].description != name
    ensures i.None? ==> forall j :: from <= j < |rows| ==> rows[j].description != name
    decreases |rows| - from
  {
    if from == |rows| then None
    else if rows[from].description == name then Some(from)
    else RowNamedFrom(rows, name, from + 1)
  }

  /** A rubric: its rows and, when it was built from an array, the per-student row scores. */
  class LegacyCanvasRubric {
    const rows: seq<LegacyRow>
    var studentScores: Option<map<string, map<string, real>>>

    /** The constructor: no rows and no score map for a null array, else the rows and an empty score map. */
    constructor (ary: Option<seq<LegacyRow>>)
      ensures ary.None? ==> rows == [] && studentScores == None
      ensures ary.Some? ==> rows == ary.value && studentScores == Some(map[])
    {
      if ary.None? {
        rows := [];
        studentScores := None;
      } else {
        rows := ary.value;
        studentScores := Some(map[]);
      }
    }

    /** get(row, col): the cell, null past the end, an exception for a negative index. */
    function CellAt(row: int, col: int): (r: Access<Option<RubricCell>>)
      ensures 0 <= row < |rows| && 0 <= col < |rows[row].cells| ==> r == Got(Some(rows[row].cells[col]))
      ensures row >= |rows| || (0 <= row < |rows| && col >= |rows[row].cells|) ==> r == Got(None)
      ensures row < 0 || (0 <= row < |rows| && col < 0) ==> r == Throws
    {
      match SlotOf(|rows|, row)
      case Beyond => Got(None)
      case Invalid => Throws
      case At(i) =>
        match SlotOf(|rows[i].cells|, col)
        case Beyond => Got(None)
        case Invalid => Throws
        case At(j) => Got(Some(rows[i].cells[j]))
    }

    /** getRowPoints: the row's points, 0 past the end. */
    function RowPoints(row: int): (r: Access<real>)
      ensures 0 <= row < |rows| ==> r == Got(rows[row].points)
      ensures row >= |rows| ==> r == Got(0.0)
      ensures row < 0 ==> r == Throws
    {
      match SlotOf(|rows|, row)
      case At(i) => Got(rows[i].points)
      case Beyond => Got(0.0)
      case Invalid => Throws
    }

    /** getRowId: the row's id, "" past the end. */
    function RowId(row: int): (r: Access<string>)
      ensures 0 <= row < |rows| ==> r == Got(rows[row].id)
      ensures row >= |rows| ==> r == Got("")
      ensures row < 0 ==> r == Throws
    {
      match SlotOf(|rows|, row)
      case At(i) => Got(rows[i].id)
      case Beyond => Got("")
      case Invalid => Throws
    }

    /** getRowDescription: the row's description, "" past the end. */
    function RowDescription(row: int): (r: Access<string>)
      ensures 0 <= row < |rows| ==> r == Got(rows[row].description)
      ensures row >= |rows| ==> r == Got("")
      ensures row < 0 ==> r == Throws
    {
      match SlotOf(|rows|, row)
      case At(i) => Got(rows[i].description)
      case Beyond => Got("")
      case Invalid => Throws
    }

    /** getRowLongDescription: the row's long description (possibly null), "" past the end. */
    function RowLongDescriptionAt(row: int): (r: Access<Option<string>>)
      ensures 0 <= row < |rows| ==> r == Got(rows[row].longDescription)
      ensures row >= |rows| ==> r == Got(Some(""))
      ensures row < 0 ==> r == Throws
    {
      match SlotOf(|rows|, row)
      case At(i) => Got(rows[i].longDescription)
      case Beyond => Got(Some(""))
      case Invalid => Throws
    }

    /**
     * setRubricScores: put each (row id, score) into the user's map, creating
     * the map when missing. A rubric built from a null array has no score map,
     * so it can only be given an empty scores map.
     */
    method SetRubricScores(user: string, scores: map<string, real>)
      requires studentScores.Some? || scores == map[]
      modifies this
      ensures studentScores.Some? <==> old(studentScores).Some?
      ensures studentScores.Some? ==> studentScores.value == ScoresAfter(old(studentScores).value, user, scores)
    {
      if scores == map[] {
        return;
      }
      var m := PutScores(studentScores.value, user, scores);
      studentScores := Some(m);
    }

    /** The rubric point sum of a user: 0 without scores, else the sum of the user's row scores. */
    function PointSum(user: string): real
      requires studentScores.Some?
      reads this
    {
      if user in studentScores.value then MapSum(studentScores.value[user]) else 0.0
    }

    /** getStudentPointSum: the sum of the user's row scores in row id order, 0 for a user with none. */
    method GetStudentPointSum(user: string) returns (sum: real)
      requires studentScores.Some?
      ensures sum == PointSum(user)
    {
      if user !in studentScores.value {
        return 0.0;
      }
      sum := SumValues(studentScores.value[user]);
    }

    /** The id of the first row described by name, or null. */
    function CriterionId(name: string): (id: Option<string>)
      ensures id.Some? <==> exists j :: 0 <= j < |rows| && rows[j].description == name
      ensures id.Some? ==> exists j :: 0 <= j < |rows| && rows[j].description == name && rows[j].id == id.value
                                       && forall k :: 0 <= k < j ==> rows[k].description != name
    {
      var i := RowNamedFrom(rows, name, 0);
      if i.Some? then Some(rows[i.value].id) else None
    }

    /** getCriterionIdFromName: the loop over the rows. */
    method CriterionIdFromName(name: string) returns (id: Option<string>)
      ensures id == CriterionId(name)
    {
      var i := 0;
      while i < |rows|
        invariant 0 <= i <= |rows|
        invariant RowNamedFrom(rows, name, i) == RowNamedFrom(rows, name, 0)
      {
        if rows[i].description == name {
          return Some(rows[i].id);
        }
        i := i + 1;
      }
      return None;
    }

    /** The points of the first row described by name, or 0. */
    function MaximumPoints(name: string): (points: real)
      ensures CriterionId(name).None? ==> points == 0.0
      ensures CriterionId(name).Some? ==>
                exists j :: 0 <= j < |rows| && rows[j].description == name && rows[j].points == points
                            && rows[j].id == CriterionId(name).value
                            && forall k :: 0 <= k < j ==> rows[k].description != name
    {
      var i := RowNamedFrom(rows, name, 0);
      if i.Some? then rows[i.value].points else 0.0
    }

    /** getMaximumOutcomePoints: the loop over the rows. */
    method MaximumOutcomePoints(name: string) returns (points: real)
      ensures points == MaximumPoints(name)
    {
      var i := 0;
      while i < |rows|
        invariant 0 <= i <= |rows|
        invariant RowNamedFrom(rows, name, i) == RowNamedFrom(rows, name, 0)
      {
        if rows[i].description == name {
          return rows[i].points;
        }
        i := i + 1;
      }
      return 0.0;
    }

    /** contains: some row is described by name, exactly when a criterion id is found for it. */
    method Contains(name: string) returns (found: bool)
      ensures found <==> CriterionId(name).Some?
    {
      var i := 0;
      while i < |rows|
        invariant 0 <= i <= |rows|
        invariant forall j :: 0 <= j < i ==> rows[j].description != name
      {
        if rows[i].description == name {
          return true;
        }
        i := i + 1;
      }
      return false;
    }

    /**
     * What getStudentOutcomePoints needs to return without a null dereference:
     * with a named row found, a score map that holds the row's score for a user it knows.
     */
    predicate ScoreReadable(name: string, user: string)
      reads this
    {
      var id := CriterionId(name);
      id.Some? ==> studentScores.Some? && (user in studentScores.value ==> id.value in studentScores.value[user])
    }

    /** getStudentOutcomePoints: 0 for an unknown criterion name or a user with no scores, else the stored row score. */
    function StudentPoints(name: string, user: string): (points: real)
      requires ScoreReadable(name, user)
      reads this
      ensures CriterionId(name).None? ==> points == 0.0
      ensures CriterionId(name).Some? && user !in studentScores.value ==> points == 0.0
      ensures CriterionId(name).Some? && user in studentScores.value ==>
                points == studentScores.value[user][CriterionId(name).value]
    {
      var id := CriterionId(name);
      if id.None? then 0.0
      else if user !in studentScores.value then 0.0
      else studentScores.value[user][id.value]
    }

    /** getStudentOutcomePoints: look up the criterion id, then the user's score for it. */
    method StudentOutcomePoints(name: string, user: string) returns (points: real)
      requires ScoreReadable(name, user)
      ensures points == StudentPoints(name, user)
    {
      var id := CriterionIdFromName(name);
      if id.None? {
        return 0.0;
      }
      if user !in studentScores.value {
        return 0.0;
      }
      return studentScores.value[user][id.value];
    }
  }

  /** The loop of setRubricScores on the score map: each (row id, score) put into the user's map. */
  method PutScores(m0: map<string, map<string, real>>, user: string, scores: map<string, real>)
    returns (m: map<string, map<string, real>>)
    ensures m == ScoresAfter(m0, user, scores)
  {
    m := m0;
    var rest := scores.Keys;
    ghost var done: map<string, real> := map[];
    while rest != {}
      invariant rest <= scores.Keys
      invariant done == scores - rest
      invariant m == ScoresAfter(m0, user, done)
      decreases |rest|
    {
      var k :| k in rest;
      if user !in m {
        m := m[user := map[]];
      }
      m := m[user := m[user][k := scores[k]]];
      ScoresStep(m0, user, done, k, scores[k]);
      assert scores - (rest - {k}) == done[k := scores[k]];
      done := done[k := scores[k]];
      rest := rest - {k};
    }
    assert done == scores;
  }

  /** The loop of getStudentPointSum: the map's values added in ascending key order. */
  method SumValues(m: map<string, real>) returns (sum: real)
    ensures sum == MapSum(m)
  {
    var keys := SortedKeys(m.Keys);
    SortedKeysMembers(m.Keys);
    sum := 0.0;
    var i := 0;
    while i < |keys|
      invariant 0 <= i <= |keys|
      invariant sum == SumOver(m, keys, i)
    {
      sum := sum + m[keys[i]];
      i := i + 1;
    }
  }

  /**
   * Scores given to a user the rubric has not seen become that user's whole
   * map, so the point sum is the sum of the scores given; no scores add no user.
   */
  lemma FirstScoresSum(m: map<string, map<string, real>>, user: string, scores: map<string, real>)
    requires user !in m
    ensures scores == map[] ==> user !in ScoresAfter(m, user, scores)
    ensures scores != map[] ==> user in ScoresAfter(m, user, scores)
                                && MapSum(ScoresAfter(m, user, scores)[user]) == MapSum(scores)
  {
    if scores != map[] {
      assert EntryOf(m, user) + scores == scores;
    }
  }
}
