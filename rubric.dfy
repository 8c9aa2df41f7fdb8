/**
 * A Canvas rubric: rows (criteria) holding rating cells ordered by points, and
 * the per-student criterion scores and KPI ratings recorded against the rows.
 */
module Rubric {
  import opened Wrappers
  import opened JavaStrings

  /** One rating cell; its competency level is fixed when the cell is built. */
  datatype RubricCell = RubricCell(points: real, id: string, description: string, longDescription: string,
                                   competencyLevel: string)

  /** The default level a (lower-cased) rating name implies. */
  function NameLevel(lower: string): (level: string)
    ensures level in {"E", "M", "I", "X", "unknown"}
    ensures level == "E" <==> lower in {"full marks", "full credit", "proficient"}
    ensures level == "M" <==> lower in {"partial marks", "partial credit", "competent", "commpetent"}
    ensures level == "I" <==> lower in {"no marks", "minimal marks", "minimal credit", "insufficient",
                                         "not proficient", "novice"}
    ensures level == "X" <==> lower in {"missing", "not attempted"}
  {
    if lower in {"full marks", "full credit", "proficient"} then "E"
    else if lower in {"partial marks", "partial credit", "competent", "commpetent"} then "M"
    else if lower in {"no marks", "minimal marks", "minimal credit", "insufficient", "not proficient", "novice"} then "I"
    else if lower in {"missing", "not attempted"} then "X"
    else "unknown"
  }

  /** The competency level of a cell: a hashtag in the long description overrides the name's level. */
  function CompetencyLevel(description: string, longDescription: string): (level: string)
    ensures level in {"E", "M", "I", "X", "unknown"}
    ensures level == "unknown" ==> NameLevel(Lower(description)) == "unknown"
  {
    var tags := Lower(longDescription);
    if Contains(tags, "#exceeds_competency") then "E"
    else if Contains(tags, "#meets_competency") then "M"
    else if Contains(tags, "#insufficient_competency") then "I"
    else if Contains(tags, "#not_attempted") then "X"
    else NameLevel(Lower(description))
  }

  /** The hashtags take precedence #exceeds > #meets > #insufficient > #not_attempted, whatever the name says. */
  lemma HashtagPrecedence(description: string, longDescription: string)
    ensures var tags := Lower(longDescription);
      (Contains(tags, "#exceeds_competency") ==> CompetencyLevel(description, longDescription) == "E")
      && (!Contains(tags, "#exceeds_competency") && Contains(tags, "#meets_competency") ==>
            CompetencyLevel(description, longDescription) == "M")
      && ((!Contains(tags, "#exceeds_competency") && !Contains(tags, "#meets_competency")
           && Contains(tags, "#insufficient_competency")) ==> CompetencyLevel(description, longDescription) == "I")
      && ((!Contains(tags, "#exceeds_competency") && !Contains(tags, "#meets_competency")
           && !Contains(tags, "#insufficient_competency") && Contains(tags, "#not_attempted")) ==>
            CompetencyLevel(description, longDescription) == "X")
  {
  }

  /** Without a hashtag, the level depends on the rating name only, and ignores its letter case. */
  lemma NameDecidesWithoutTags(d1: string, d2: string, longDescription: string)
    requires Lower(d1) == Lower(d2)
    ensures CompetencyLevel(d1, longDescription) == CompetencyLevel(d2, longDescription)
  {
  }

  /** The RubricCell constructor. */
  function MakeCell(points: real, id: string, description: string, longDescription: string): (c: RubricCell)
    ensures c.points == points && c.id == id && c.description == description
    ensures c.longDescription == longDescription
    ensures c.competencyLevel == CompetencyLevel(description, longDescription)
  {
    RubricCell(points, id, description, longDescription, CompetencyLevel(description, longDescription))
  }

  /** Cells in non-increasing order of points. */
  predicate NonIncreasing(cells: seq<RubricCell>)
  {
    forall i, j :: 0 <= i < j < |cells| ==> cells[i].points >= cells[j].points
  }

  /** Where addOrdered puts a cell worth p: before the first cell worth strictly less, else at the end. */
  function InsertionIndex(cells: seq<RubricCell>, p: real): (k: nat)
    ensures k <= |cells|
    ensures forall j :: 0 <= j < k ==> cells[j].points >= p
    ensures k < |cells| ==> cells[k].points < p
  {
    if |cells| == 0 || p > cells[0].points then 0 else 1 + InsertionIndex(cells[1..], p)
  }

  /** The row after addOrdered(rc). */
  function InsertOrdered(cells: seq<RubricCell>, rc: RubricCell): (r: seq<RubricCell>)
  {
    var k := InsertionIndex(cells, rc.points);
    cells[..k] + [rc] + cells[k..]
  }

  /** addOrdered adds exactly the new cell: the row is a permutation of the old row plus rc. */
  lemma InsertOrderedMultiset(cells: seq<RubricCell>, rc: RubricCell)
    ensures |InsertOrdered(cells, rc)| == |cells| + 1
    ensures multiset(InsertOrdered(cells, rc)) == multiset(cells) + multiset{rc}
  {
    var k := InsertionIndex(cells, rc.points);
    var before, after := cells[..k], cells[k..];
    assert cells == before + after;
    assert InsertOrdered(cells, rc) == before + [rc] + after;
  }

  /**
   * addOrdered keeps every old cell, in order, around the new one; every cell before the
   * new one is worth at least as much.
   */
  lemma InsertOrderedShape(cells: seq<RubricCell>, rc: RubricCell)
    ensures var r := InsertOrdered(cells, rc); var k := InsertionIndex(cells, rc.points);
      |r| == |cells| + 1 && r[k] == rc
      && (forall j :: 0 <= j < k ==> r[j] == cells[j] && r[j].points >= rc.points)
      && (forall j :: k < j < |r| ==> r[j] == cells[j - 1])
  {
    var k := InsertionIndex(cells, rc.points);
    var before, after := cells[..k], cells[k..];
    var r := InsertOrdered(cells, rc);
    assert r == before + [rc] + after;
    forall j | 0 <= j < k ensures r[j] == cells[j] {
      assert r[j] == before[j];
    }
    forall j | k < j < |r| ensures r[j] == cells[j - 1] {
      assert r[j] == after[j - k - 1];
    }
  }

  /**
   * On a non-increasing row, every cell after the new one is worth strictly less (ties keep
   * insertion order) and the row stays non-increasing.
   */
  lemma InsertOrderedKeepsOrder(cells: seq<RubricCell>, rc: RubricCell)
    requires NonIncreasing(cells)
    ensures var r := InsertOrdered(cells, rc); var k := InsertionIndex(cells, rc.points);
      (forall j :: k < j < |r| ==> r[j].points < rc.points) && NonIncreasing(r)
  {
    var r := InsertOrdered(cells, rc);
    var k := InsertionIndex(cells, rc.points);
    InsertOrderedShape(cells, rc);
    forall j | k < j < |r| ensures r[j].points < rc.points {
      assert r[j] == cells[j - 1];
      assert cells[k].points >= cells[j - 1].points;
    }
    forall i, j | 0 <= i < j < |r| ensures r[i].points >= r[j].points {
      if j == k {
        assert r[i] == cells[i];
      } else if i == k {
      } else if i < k {
        assert r[i] == cells[i];
        if j < k { assert r[j] == cells[j]; } else { assert r[j] == cells[j - 1]; }
      } else {
        assert r[i] == cells[i - 1] && r[j] == cells[j - 1];
      }
    }
  }

  /**
   * A rubric row: its criterion data and its rating cells, kept in non-increasing order of
   * points. The cells are filled by the constructor only, so they are a constant of the row.
   */
  class RubricRow {
    const points: real
    const id: string
    const description: string
    const longDescription: string
    const cells: seq<RubricCell>

    /** The JSON constructor: each rating of the array is added with addOrdered, in array order. */
    constructor (points: real, id: string, description: string, longDescription: string, ratings: seq<RubricCell>)
      ensures this.points == points && this.id == id && this.description == description
      ensures this.longDescription == longDescription
      ensures cells == InsertAll(ratings)
      ensures NonIncreasing(cells) && multiset(cells) == multiset(ratings)
    {
      this.points := points;
      this.id := id;
      this.description := description;
      this.longDescription := longDescription;
      var built := AddAllOrdered(ratings);
      cells := built;
    }
  }

  /** The constructor's loop: each rating added with addOrdered, in array order. */
  method AddAllOrdered(ratings: seq<RubricCell>) returns (built: seq<RubricCell>)
    ensures built == InsertAll(ratings)
    ensures NonIncreasing(built) && multiset(built) == multiset(ratings)
  {
    built := [];
    var i := 0;
    while i < |ratings|
      invariant 0 <= i <= |ratings|
      invariant built == InsertAll(ratings[..i])
    {
      assert ratings[..i + 1][..i] == ratings[..i];
      built := AddOrdered(built, ratings[i]);
      i := i + 1;
    }
    assert ratings[..i] == ratings;
    InsertAllOrdered(ratings);
  }

  /** addOrdered: insert before the first cell worth strictly fewer points, else append. */
  method AddOrdered(cells: seq<RubricCell>, rc: RubricCell) returns (r: seq<RubricCell>)
    ensures r == InsertOrdered(cells, rc)
  {
    var i := 0;
    while i < |cells|
      invariant 0 <= i <= |cells|
      invariant forall j :: 0 <= j < i ==> rc.points <= cells[j].points
    {
      if rc.points > cells[i].points {
        InsertionIndexIs(cells, rc.points, i);
        return cells[..i] + [rc] + cells[i..];
      }
      i := i + 1;
    }
    InsertionIndexIs(cells, rc.points, |cells|);
    r := cells[..|cells|] + [rc] + cells[|cells|..];
  }

  /** The insertion index is the first position holding a cell worth strictly less than p. */
  lemma {:induction false} InsertionIndexIs(cells: seq<RubricCell>, p: real, i: nat)
    requires i <= |cells|
    requires forall j :: 0 <= j < i ==> p <= cells[j].points
    requires i < |cells| ==> p > cells[i].points
    ensures InsertionIndex(cells, p) == i
    decreases i
  {
    if i > 0 {
      InsertionIndexIs(cells[1..], p, i - 1);
    }
  }

  /** Adding cells one by one with addOrdered, in array order. */
  function InsertAll(ratings: seq<RubricCell>): seq<RubricCell>
    decreases |ratings|
  {
    if |ratings| == 0 then [] else InsertOrdered(InsertAll(ratings[..|ratings| - 1]), ratings[|ratings| - 1])
  }

  /** A row built by addOrdered is non-increasing in points and holds exactly the ratings given. */
  lemma {:induction false} InsertAllOrdered(ratings: seq<RubricCell>)
    ensures NonIncreasing(InsertAll(ratings))
    ensures multiset(InsertAll(ratings)) == multiset(ratings)
    decreases |ratings|
  {
    if |ratings| > 0 {
      var init, last := ratings[..|ratings| - 1], ratings[|ratings| - 1];
      InsertAllOrdered(init);
      InsertOrderedMultiset(InsertAll(init), last);
      InsertOrderedKeepsOrder(InsertAll(init), last);
      assert ratings == init + [last];
    }
  }

  /** A user's inner map, or the empty map for a user with none. */
  function EntryOf<V>(m: map<string, map<string, V>>, user: string): map<string, V>
  {
    if user in m then m[user] else map[]
  }

  /** The score maps after setRubricScores(user, scores); ScoresAfterSpec states what it holds. */
  function ScoresAfter(m: map<string, map<string, real>>, user: string, scores: map<string, real>)
    : map<string, map<string, real>>
  {
    if scores == map[] then m else m[user := EntryOf(m, user) + scores]
  }

  /**
   * setRubricScores: the user's map holds every given (row id, score); the user's other row
   * ids and every other user are unchanged; no scores creates no entry.
   */
  lemma ScoresAfterSpec(m: map<string, map<string, real>>, user: string, scores: map<string, real>)
    ensures var r := ScoresAfter(m, user, scores);
      && (scores == map[] ==> r == m)
      && (forall id :: id in scores ==> user in r && id in r[user] && r[user][id] == scores[id])
      && (forall id :: id !in scores ==>
            ((user in r && id in r[user]) <==> (user in m && id in m[user]))
            && (user in m && id in m[user] ==> r[user][id] == m[user][id]))
      && (forall u :: u != user ==> (u in r <==> u in m) && (u in m ==> r[u] == m[u]))
  {
  }

  /** A map updated with an optional value: nothing changes for None. */
  function PutIf(m: map<string, string>, k: string, v: Option<string>): map<string, string>
  {
    if v.Some? then m[k := v.value] else m
  }

  /**
   * The level recorded for ratingId after scanning the first n cells of a row: each cell
   * with that id overwrites the previous result, so the last such cell wins.
   */
  function CellsLevel(cells: seq<RubricCell>, ratingId: string, n: nat, acc: Option<string>): (r: Option<string>)
    requires n <= |cells|
    ensures r.Some? ==> r == acc || exists j :: 0 <= j < n && cells[j].id == ratingId && r.value == cells[j].competencyLevel
  {
    if n == 0 then acc
    else
      var prev := CellsLevel(cells, ratingId, n - 1, acc);
      if cells[n - 1].id == ratingId then Some(cells[n - 1].competencyLevel) else prev
  }

  /** The last cell with ratingId decides the level; without one the level is unchanged. */
  lemma {:induction false} CellsLevelLast(cells: seq<RubricCell>, ratingId: string, n: nat, acc: Option<string>, j: nat)
    requires j < n <= |cells| && cells[j].id == ratingId
    requires forall k :: j < k < n ==> cells[k].id != ratingId
    ensures CellsLevel(cells, ratingId, n, acc) == Some(cells[j].competencyLevel)
  {
    if n - 1 != j {
      CellsLevelLast(cells, ratingId, n - 1, acc, j);
    }
  }

  /** The level recorded for (rowId, ratingId) after scanning the first n rows: the last matching cell of the last matching row. */
  function RowsLevel(rows: seq<RubricRow>, rowId: string, ratingId: string, n: nat): Option<string>
    requires n <= |rows|
  {
    if n == 0 then None
    else
      var prev := RowsLevel(rows, rowId, ratingId, n - 1);
      if rows[n - 1].id == rowId then CellsLevel(rows[n - 1].cells, ratingId, |rows[n - 1].cells|, prev) else prev
  }

  /** The levels found for the first n keys, in key order: each key whose level is found is put. */
  function LevelsOver(rows: seq<RubricRow>, ratings: map<string, string>, keys: seq<string>, n: nat): map<string, string>
    requires n <= |keys|
    requires forall k :: k in keys ==> k in ratings
  {
    if n == 0 then map[]
    else PutIf(LevelsOver(rows, ratings, keys, n - 1), keys[n - 1], RowsLevel(rows, keys[n - 1], ratings[keys[n - 1]], |rows|))
  }

  /** The found levels: exactly the keys whose rating is found in their row, each with its level. */
  lemma {:induction false} LevelsOverSpec(rows: seq<RubricRow>, ratings: map<string, string>, keys: seq<string>, n: nat, id: string)
    requires n <= |keys|
    requires forall k :: k in keys ==> k in ratings
    ensures var r := LevelsOver(rows, ratings, keys, n);
      && (id in r <==> id in keys[..n] && RowsLevel(rows, id, ratings[id], |rows|).Some?)
      && (id in r ==> r[id] == RowsLevel(rows, id, ratings[id], |rows|).value)
  {
    if n > 0 {
      LevelsOverSpec(rows, ratings, keys, n - 1, id);
      assert keys[..n] == keys[..n - 1] + [keys[n - 1]];
    }
  }

  /** The levels found for all the ratings, in ascending row id order. */
  function AllLevels(rows: seq<RubricRow>, ratings: map<string, string>): map<string, string>
  {
    var keys := SortedKeys(ratings.Keys);
    SortedKeysMembers(ratings.Keys);
    LevelsOver(rows, ratings, keys, |keys|)
  }

  /** The rating maps after setRubricRatings(user, ratings); RatingsAfterSpec states what it holds. */
  function RatingsAfter(m: map<string, map<string, string>>, user: string, ratings: map<string, string>,
                        rows: seq<RubricRow>): map<string, map<string, string>>
  {
    if ratings == map[] then m else m[user := EntryOf(m, user) + AllLevels(rows, ratings)]
  }

  /**
   * setRubricRatings: a non-empty ratings map creates the user's entry; each row id whose
   * rating id names a cell of a row with that id gets that cell's competency level (the last
   * such cell wins); every other entry and every other user is unchanged.
   */
  lemma RatingsAfterSpec(m: map<string, map<string, string>>, user: string, ratings: map<string, string>,
                         rows: seq<RubricRow>, id: string)
    ensures var r := RatingsAfter(m, user, ratings, rows);
      && (ratings == map[] ==> r == m)
      && (ratings != map[] ==> user in r)
      && (forall u :: u != user ==> (u in r <==> u in m) && (u in m ==> r[u] == m[u]))
      && (id in ratings && RowsLevel(rows, id, ratings[id], |rows|).Some? ==>
            id in r[user] && r[user][id] == RowsLevel(rows, id, ratings[id], |rows|).value)
      && ((id !in ratings || RowsLevel(rows, id, ratings[id], |rows|).None?) ==>
            ((user in r && id in r[user]) <==> (user in m && id in m[user]))
            && (user in m && id in m[user] ==> r[user][id] == m[user][id]))
  {
    var keys := SortedKeys(ratings.Keys);
    SortedKeysMembers(ratings.Keys);
    LevelsOverSpec(rows, ratings, keys, |keys|, id);
    assert keys[..|keys|] == keys;
  }

  /** The sum of m's values over the first n keys. */
  function SumOver(m: map<string, real>, keys: seq<string>, n: nat): real
    requires n <= |keys|
    requires forall k :: k in keys ==> k in m
  {
    if n == 0 then 0.0 else SumOver(m, keys, n - 1) + m[keys[n - 1]]
  }

  /** The values of m in ascending key order, summed: what iterating a TreeMap adds up. */
  function MapSum(m: map<string, real>): real
  {
    var keys := SortedKeys(m.Keys);
    SortedKeysMembers(m.Keys);
    SumOver(m, keys, |keys|)
  }

  /** The sum over the first n keys of m's values, each scaled by c. */
  function ScaledSumOver(m: map<string, real>, keys: seq<string>, n: nat, c: real): real
    requires n <= |keys|
    requires forall k :: k in keys ==> k in m
  {
    if n == 0 then 0.0 else ScaledSumOver(m, keys, n - 1, c) + m[keys[n - 1]] * c
  }

  /** Scaling every term scales the sum. */
  lemma {:induction false} ScaledSumFactor(m: map<string, real>, keys: seq<string>, n: nat, c: real)
    requires n <= |keys|
    requires forall k :: k in keys ==> k in m
    ensures ScaledSumOver(m, keys, n, c) == SumOver(m, keys, n) * c
  {
    if n > 0 {
      ScaledSumFactor(m, keys, n - 1, c);
      assert (SumOver(m, keys, n - 1) + m[keys[n - 1]]) * c
          == SumOver(m, keys, n - 1) * c + m[keys[n - 1]] * c;
    }
  }

  /**
   * The rescaling of an assignment's rubric: when the row scores sum to s != 0, scaling each
   * by grade / s makes the scaled scores of all rated rows add up to the grade.
   */
  lemma ScaledRowsAddUpToGrade(m: map<string, real>, grade: real)
    requires MapSum(m) != 0.0
    ensures var keys := SortedKeys(m.Keys);
            (forall k :: k in keys ==> k in m)
            && ScaledSumOver(m, keys, |keys|, grade / MapSum(m)) == grade
  {
    var keys := SortedKeys(m.Keys);
    SortedKeysMembers(m.Keys);
    ScaledSumFactor(m, keys, |keys|, grade / MapSum(m));
  }

  /** The first row at or after `from` whose description is name. */
  function FirstRowNamed(rows: seq<RubricRow>, name: string, from: nat): (i: Option<nat>)
    requires from <= |rows|
    ensures i.Some? ==> from <= i.value < |rows| && rows[i.value].description == name
                        && forall j :: from <= j < i.value ==> rows[j].description != name
    ensures i.None? ==> forall j :: from <= j < |rows| ==> rows[j].description != name
    decreases |rows| - from
  {
    if from == |rows| then None
    else if rows[from].description == name then Some(from)
    else FirstRowNamed(rows, name, from + 1)
  }

  /** A rubric: its rows, and per student the score and the KPI level recorded for each row id. */
  class CanvasRubric {
    const rows: seq<RubricRow>
    /** Whether the rubric was built from an array; without one the score maps stay null in Java. */
    const loaded: bool
    var studentScores: map<string, map<string, real>>
    var studentKpiRatings: map<string, map<string, string>>

    /** A rubric from its rows, or from a missing array: no rows and no score maps. */
    constructor (ary: Option<seq<RubricRow>>)
      ensures loaded <==> ary.Some?
      ensures rows == if ary.Some? then ary.value else []
      ensures studentScores == map[] && studentKpiRatings == map[]
    {
      rows := if ary.Some? then ary.value else [];
      loaded := ary.Some?;
      studentScores := map[];
      studentKpiRatings := map[];
    }

    /**
     * setRubricScores: put each (row id, score) into the user's map, in ascending row id order.
     * Without an array only an empty map can be set: the first put would dereference the null map.
     */
    method SetRubricScores(user: string, scores: map<string, real>)
      requires loaded || scores == map[]
      modifies this
      ensures studentScores == ScoresAfter(old(studentScores), user, scores)
      ensures studentKpiRatings == old(studentKpiRatings)
    {
      var rest := scores.Keys;
      ghost var done: map<string, real> := map[];
      while rest != {}
        invariant rest <= scores.Keys
        invariant done == scores - rest
        invariant studentScores == ScoresAfter(old(studentScores), user, done)
        invariant studentKpiRatings == old(studentKpiRatings)
        decreases |rest|
      {
        var k :| k in rest;
        if user !in studentScores {
          studentScores := studentScores[user := map[]];
        }
        studentScores := studentScores[user := studentScores[user][k := scores[k]]];
        ScoresStep(old(studentScores), user, done, k, scores[k]);
        assert scores - (rest - {k}) == done[k := scores[k]];
        done := done[k := scores[k]];
        rest := rest - {k};
      }
      assert done == scores;
    }

    /**
     * setRubricRatings: for each (row id, rating id), record the level of that rating of that row.
     * The user's inner map is built as a value and stored once; a non-empty ratings map creates it.
     */
    method SetRubricRatings(user: string, ratings: map<string, string>)
      requires loaded || ratings == map[]
      modifies this
      ensures studentKpiRatings == RatingsAfter(old(studentKpiRatings), user, ratings, rows)
      ensures studentScores == old(studentScores)
    {
      var entry := if user in studentKpiRatings then studentKpiRatings[user] else map[];
      entry := RecordLevels(rows, ratings, entry);
      if ratings != map[] {
        studentKpiRatings := studentKpiRatings[user := entry];
      }
    }

    /** getStudentPointSum: 0 for a user with no scores, else the sum of the user's row scores (the map must exist). */
    method GetStudentPointSum(user: string) returns (sum: real)
      requires loaded
      ensures sum == PointSum(user)
    {
      if user !in studentScores {
        return 0.0;
      }
      var m := studentScores[user];
      var keys := SortedKeys(m.Keys);
      SortedKeysMembers(m.Keys);
      sum := 0.0;
      var i := 0;
      while i < |keys|
        invariant 0 <= i <= |keys|
        invariant sum == SumOver(m, keys, i)
      {
        sum := sum + m[keys[i]];
        i := i + 1;
      }
    }

    /** The rubric point sum of a user: 0 without scores, else the sum of the user's row scores. */
    function PointSum(user: string): real
      reads this
    {
      if user in studentScores then MapSum(studentScores[user]) else 0.0
    }

    /** getCriterionIdFromName: the id of the first row described by name, or null. */
    function CriterionIdFromName(name: string): (id: Option<string>)
      ensures id.Some? <==> exists j :: 0 <= j < |rows| && rows[j].description == name
      ensures id.Some? ==> exists j :: 0 <= j < |rows| && rows[j].description == name && rows[j].id == id.value
                                       && forall k :: 0 <= k < j ==> rows[k].description != name
    {
      var i := FirstRowNamed(rows, name, 0);
      if i.Some? then Some(rows[i.value].id) else None
    }

    /** getMaximumOutcomePoints: the points of the first row described by name, or 0. */
    function MaximumOutcomePoints(name: string): (points: real)
      ensures CriterionIdFromName(name).None? ==> points == 0.0
      ensures CriterionIdFromName(name).Some? ==>
                exists j :: 0 <= j < |rows| && rows[j].description == name && rows[j].points == points
                            && forall k :: 0 <= k < j ==> rows[k].description != name
    {
      var i := FirstRowNamed(rows, name, 0);
      if i.Some? then rows[i.value].points else 0.0
    }

    /** contains: some row is described by name. */
    function Contains(name: string): (found: bool)
      ensures found <==> CriterionIdFromName(name).Some?
    {
      FirstRowNamed(rows, name, 0).Some?
    }

    /** The condition under which getStudentOutcomePoints does not dereference a missing score. */
    predicate ScoreRecorded(name: string, user: string)
      reads this
    {
      var id := CriterionIdFromName(name);
      id.Some? && user in studentScores ==> id.value in studentScores[user]
    }

    /** getStudentOutcomePoints: 0 for an unknown criterion name or a user with no scores, else the stored row score. */
    function StudentOutcomePoints(name: string, user: string): (points: real)
      requires ScoreRecorded(name, user)
      reads this
      ensures CriterionIdFromName(name).None? || user !in studentScores ==> points == 0.0
      ensures CriterionIdFromName(name).Some? && user in studentScores ==>
                points == studentScores[user][CriterionIdFromName(name).value]
    {
      var id := CriterionIdFromName(name);
      if id.None? then 0.0
      else if user !in studentScores then 0.0
      else studentScores[user][id.value]
    }

    /** getStudentOutcomeKpiAttainment: "X" for an unknown criterion or a user without ratings, else the stored level (null when none). */
    function StudentOutcomeKpiAttainment(name: string, user: string): (level: Option<string>)
      reads this
      ensures CriterionIdFromName(name).None? || user !in studentKpiRatings ==> level == Some("X")
      ensures CriterionIdFromName(name).Some? && user in studentKpiRatings ==>
                var id := CriterionIdFromName(name).value;
                (level.Some? <==> id in studentKpiRatings[user]) && (level.Some? ==> level.value == studentKpiRatings[user][id])
    {
      var id := CriterionIdFromName(name);
      if id.None? then Some("X")
      else if user !in studentKpiRatings then Some("X")
      else if id.value in studentKpiRatings[user] then Some(studentKpiRatings[user][id.value])
      else None
    }
  }

  /** The loop of setRubricRatings over the ratings, in ascending row id order, on the user's map. */
  method RecordLevels(rows: seq<RubricRow>, ratings: map<string, string>, entry: map<string, string>)
    returns (r: map<string, string>)
    ensures r == entry + AllLevels(rows, ratings)
  {
    var keys := SortedKeys(ratings.Keys);
    SortedKeysMembers(ratings.Keys);
    r := entry;
    var i := 0;
    while i < |keys|
      invariant 0 <= i <= |keys|
      invariant r == entry + LevelsOver(rows, ratings, keys, i)
    {
      var rowId := keys[i];
      var level := FindLevel(rows, rowId, ratings[rowId]);
      PutIfMerge(entry, LevelsOver(rows, ratings, keys, i), rowId, level);
      if level.Some? {
        r := r[rowId := level.value];
      }
      i := i + 1;
    }
  }

  /**
   * The scan of setRubricRatings for one (row id, rating id): every cell with the rating id in
   * every row with the row id is put in turn, so the level left in the map is the last one found.
   */
  method FindLevel(rows: seq<RubricRow>, rowId: string, ratingId: string) returns (level: Option<string>)
    ensures level == RowsLevel(rows, rowId, ratingId, |rows|)
  {
    level := None;
    var r := 0;
    while r < |rows|
      invariant 0 <= r <= |rows|
      invariant level == RowsLevel(rows, rowId, ratingId, r)
    {
      var row := rows[r];
      if row.id == rowId {
        ghost var start := level;
        var c := 0;
        while c < |row.cells|
          invariant 0 <= c <= |row.cells|
          invariant level == CellsLevel(row.cells, ratingId, c, start)
        {
          var rating := row.cells[c];
          if rating.id == ratingId {
            level := Some(rating.competencyLevel);
          }
          c := c + 1;
        }
      }
      r := r + 1;
    }
  }

  /** Putting after a merge is merging after the put. */
  lemma PutIfMerge(e: map<string, string>, found: map<string, string>, k: string, v: Option<string>)
    ensures PutIf(e + found, k, v) == e + PutIf(found, k, v)
  {
  }

  /** One entry of setRubricScores: create the user's map if missing, then put the score. */
  lemma ScoresStep(m: map<string, map<string, real>>, user: string, done: map<string, real>, k: string, v: real)
    ensures var cur := ScoresAfter(m, user, done);
            var base := if user in cur then cur else cur[user := map[]];
            base[user := base[user][k := v]] == ScoresAfter(m, user, done[k := v])
  {
    var e := EntryOf(m, user);
    MergeUpdate(e, done, k, v);
    assert k in done[k := v];
    if done == map[] {
      var base := if user in m then m else m[user := map[]];
      assert base[user] == e;
      assert e + done[k := v] == e[k := v];
      assert base[user := e[k := v]] == m[user := e[k := v]];
    } else {
      var cur := m[user := e + done];
      assert cur[user := (e + done)[k := v]] == m[user := (e + done)[k := v]];
    }
  }

  /** A put after a merge is a merge of the updated map. */
  lemma MergeUpdate<V>(e: map<string, V>, done: map<string, V>, k: string, v: V)
    ensures e + done[k := v] == (e + done)[k := v]
  {
  }

}
