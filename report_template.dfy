/**
 * The template pass of the outcome report (OutcomeReport.createReportFromTemplate):
 * the template's lines are read one by one; a small state machine drops the
 * parts of the template the course does not use (assessment bullets, table
 * columns and rows beyond the number of associations or students, whole
 * outcome sections beyond the number of outcomes), and every line written
 * has its "$+...$-" symbols replaced from the symbol table.
 */
module ReportTemplate {
  import opened Wrappers
  import opened JavaStrings
  import XmlTemplate

  /** The number of assessment columns and bullets the template provides. */
  const MaxAssessment := 6

  const EndMarker := "$+END$-</w:t>"
  /** What replaces the first line of an unused outcome: it closes the open text run and paragraph. */
  const CloseParagraph := "</w:t></w:r></w:p>"
  /** What replaces the end marker: it reopens a paragraph. */
  const OpenParagraph := "<w:p><w:r><w:t></w:t>"

  /** The states of the pass. */
  datatype Phase =
    | ParseNormal
    | AssessmentList
    | FlushAssessmentList
    | ParseScoreTable
    | FlushUnusedColumns
    | FlushUnusedRows
    | AttainmentSummaryTable
    | FlushUnusedOutcomes

  /** The variables the pass keeps across lines. */
  datatype Vars = Vars(state: Phase, assessmentCount: int, outcomeNumber: int, columnCount: int,
                       rowCount: int, startRowCounting: bool)

  /** The variables before the first line. */
  const Start := Vars(ParseNormal, 0, 1, 0, 0, false)

  /** What happens to one line: written (before replacement), dropped, or the pass stops on an out-of-range outcome index. */
  datatype Action = Write(line: string) | Drop | Fail

  /** The marker line that starts the section of outcome n. */
  function OutcomeMarker(n: nat): string
  {
    "$+O" + NatToString(n) + "$-</w:t>"
  }

  /** The outcome a trimmed line marks, trying 1 to 20 in order. */
  function MarkedFrom(t: string, n: nat): (r: Option<nat>)
    requires 1 <= n
    ensures r.Some? ==> n <= r.value <= 20 && t == OutcomeMarker(r.value)
    ensures r.None? <==> forall m :: n <= m <= 20 ==> t != OutcomeMarker(m)
    decreases 21 - n
  {
    if n > 20 then None
    else if t == OutcomeMarker(n) then Some(n)
    else MarkedFrom(t, n + 1)
  }

  function MarkedOutcome(t: string): Option<nat>
  {
    MarkedFrom(t, 1)
  }

  /** The association count of outcome number n (numbers from 1), if there is such an outcome. */
  function AssocCount(assocCounts: seq<nat>, n: int): (r: Option<nat>)
    ensures r.Some? <==> 1 <= n <= |assocCounts|
  {
    if 1 <= n <= |assocCounts| then Some(assocCounts[n - 1]) else None
  }

  /** The trimmed template lines the pass reacts to. */
  datatype LineKind =
    | ParagraphEnd     // "</w:p>"
    | RowEnd           // "</w:tr>"
    | CellEnd          // "</w:tc>"
    | TableEnd         // "</w:tbl>"
    | FirstRowLabel    // "A1.</w:t>"
    | ListHeading      // "Assessments</w:t>", "Key Performance Indicators</w:t>"
    | SummaryHeading   // "KPI Threshold Table</w:t>", "Attainment Totals</w:t>", "Attainment by Percent of Population</w:t>"
    | RawDataHeading   // "Raw Data</w:t>"
    | EndLine          // "$+END$-</w:t>"
    | OtherLine

  /** The kind of a trimmed line (the texts are all distinct, so the order of the tests does not matter). */
  function Kind(t: string): LineKind
  {
    if t == "</w:p>" then ParagraphEnd
    else if t == "</w:tr>" then RowEnd
    else if t == "</w:tc>" then CellEnd
    else if t == "</w:tbl>" then TableEnd
    else if t == "A1.</w:t>" then FirstRowLabel
    else if t == "Assessments</w:t>" || t == "Key Performance Indicators</w:t>" then ListHeading
    else if t == "KPI Threshold Table</w:t>" || t == "Attainment Totals</w:t>" || t == "Attainment by Percent of Population</w:t>" then SummaryHeading
    else if t == "Raw Data</w:t>" then RawDataHeading
    else if t == EndMarker then EndLine
    else OtherLine
  }

  /** A template line with what the pass reads from its trimmed text: its kind and the outcome it marks. */
  datatype Line = Line(text: string, kind: LineKind, marked: Option<nat>)

  function Classify(text: string): (l: Line)
    ensures l.text == text
  {
    Line(text, Kind(Trim(text)), MarkedOutcome(Trim(text)))
  }

  /** The outcome number the line leaves in effect: the one it marks, else the current one. */
  function OutcomeAfter(v: Vars, l: Line): int
  {
    match l.marked case Some(n) => n case None => v.outcomeNumber
  }

  /** One line of the pass: the outcome marker first, then the state's own case. */
  function Next(assocCounts: seq<nat>, studentCount: nat, v0: Vars, l: Line): (Vars, Action)
  {
    NextOn(assocCounts, studentCount, v0.(outcomeNumber := OutcomeAfter(v0, l)), l.kind, l.text)
  }

  /** The state's own case, on a line of kind k, with the outcome number already updated. */
  function NextOn(assocCounts: seq<nat>, studentCount: nat, v: Vars, k: LineKind, line: string): (Vars, Action)
  {
    var count := AssocCount(assocCounts, v.outcomeNumber);
    match v.state
    case ParseNormal =>
      if v.outcomeNumber > |assocCounts| then (v.(state := FlushUnusedOutcomes), Write(CloseParagraph))
      else if k == ListHeading then (v.(state := AssessmentList, assessmentCount := 0), Write(line))
      else if k == SummaryHeading then
        (v.(state := AttainmentSummaryTable, rowCount := 0, startRowCounting := false, assessmentCount := 0), Write(line))
      else if k == RawDataHeading then (v.(state := ParseScoreTable, columnCount := 0, rowCount := 0), Write(line))
      else (v, Write(line))
    case AssessmentList =>
      if k != ParagraphEnd then (v, Write(line))
      else if v.assessmentCount == MaxAssessment then
        (v.(state := ParseNormal, assessmentCount := v.assessmentCount + 1), Write(line))
      else if count.None? then (v, Fail)
      else
        (v.(state := if v.assessmentCount >= count.value then FlushAssessmentList else AssessmentList,
            assessmentCount := v.assessmentCount + 1), Write(line))
    case AttainmentSummaryTable =>
      var start := v.startRowCounting || k == FirstRowLabel;
      var rows := if start then v.rowCount + 1 else v.rowCount;
      if k != RowEnd then (v.(startRowCounting := start), Write(line))
      else if count.None? then (v, Fail)
      else
        (v.(startRowCounting := start, columnCount := 0, rowCount := rows,
            state := if rows >= count.value then FlushUnusedRows else AttainmentSummaryTable), Write(line))
    case FlushAssessmentList =>
      if k != ParagraphEnd then (v, Drop)
      else
        (v.(state := if v.assessmentCount == MaxAssessment then ParseNormal else FlushAssessmentList,
            assessmentCount := v.assessmentCount + 1), Drop)
    case ParseScoreTable =>
      if k == RowEnd then
        (v.(columnCount := 0, state := if v.rowCount >= studentCount then FlushUnusedRows else ParseScoreTable,
            rowCount := v.rowCount + 1), Write(line))
      else if k != CellEnd then (v, Write(line))
      else if v.columnCount == MaxAssessment then (v.(columnCount := -4), Write(line))
      else if count.None? then (v, Fail)
      else
        (v.(state := if v.columnCount >= count.value then FlushUnusedColumns else ParseScoreTable,
            columnCount := v.columnCount + 1), Write(line))
    case FlushUnusedColumns =>
      if k != CellEnd then (v, Drop)
      else if v.columnCount == MaxAssessment then (v.(state := ParseScoreTable, columnCount := -4), Drop)
      else (v.(columnCount := v.columnCount + 1), Drop)
    case FlushUnusedRows =>
      if k == TableEnd then (v.(state := ParseNormal), Write(line)) else (v, Drop)
    case FlushUnusedOutcomes =>
      if k != EndLine then (v, Drop)
      else (v.(state := ParseNormal, outcomeNumber := 0), Write(OpenParagraph))
  }

  /** The bounds the counters keep: columns between -4 and 6, bullets up to 7 (at most 6 inside a list). */
  predicate Valid(v: Vars)
  {
    && -4 <= v.columnCount <= MaxAssessment
    && 0 <= v.assessmentCount <= MaxAssessment + 1
    && (v.state == AssessmentList || v.state == FlushAssessmentList ==> v.assessmentCount <= MaxAssessment)
    && 0 <= v.rowCount
    && 0 <= v.outcomeNumber
  }

  /** Every line keeps the counters within their bounds. */
  lemma NextValid(assocCounts: seq<nat>, studentCount: nat, v: Vars, l: Line)
    requires Valid(v)
    ensures Valid(Next(assocCounts, studentCount, v, l).0)
  {
    NextOnValid(assocCounts, studentCount, v.(outcomeNumber := OutcomeAfter(v, l)), l.kind, l.text);
  }

  lemma NextOnValid(assocCounts: seq<nat>, studentCount: nat, v: Vars, k: LineKind, line: string)
    requires Valid(v)
    ensures Valid(NextOn(assocCounts, studentCount, v, k, line).0)
  {
  }

  /**
   * A line is dropped exactly in the flushing states: every line while
   * flushing bullets or columns, every line but the table's end while
   * flushing rows, every line but the end marker while flushing outcomes.
   */
  lemma DropIff(assocCounts: seq<nat>, studentCount: nat, v: Vars, l: Line)
    ensures Next(assocCounts, studentCount, v, l).1 == Drop <==>
              || v.state == FlushAssessmentList
              || v.state == FlushUnusedColumns
              || (v.state == FlushUnusedRows && l.kind != TableEnd)
              || (v.state == FlushUnusedOutcomes && l.kind != EndLine)
  {
    NextOnDropIff(assocCounts, studentCount, v.(outcomeNumber := OutcomeAfter(v, l)), l.kind, l.text);
  }

  lemma NextOnDropIff(assocCounts: seq<nat>, studentCount: nat, v: Vars, k: LineKind, line: string)
    ensures NextOn(assocCounts, studentCount, v, k, line).1 == Drop <==>
              || v.state == FlushAssessmentList
              || v.state == FlushUnusedColumns
              || (v.state == FlushUnusedRows && k != TableEnd)
              || (v.state == FlushUnusedOutcomes && k != EndLine)
  {
  }

  /**
   * The pass stops exactly when a list, summary table or score table needs
   * the association count of an outcome number that names no outcome.
   */
  lemma FailIff(assocCounts: seq<nat>, studentCount: nat, v: Vars, l: Line)
    ensures Next(assocCounts, studentCount, v, l).1 == Fail <==>
              && AssocCount(assocCounts, OutcomeAfter(v, l)).None?
              && (|| (v.state == AssessmentList && l.kind == ParagraphEnd && v.assessmentCount != MaxAssessment)
                  || (v.state == AttainmentSummaryTable && l.kind == RowEnd)
                  || (v.state == ParseScoreTable && l.kind == CellEnd && v.columnCount != MaxAssessment))
  {
    NextOnFailIff(assocCounts, studentCount, v.(outcomeNumber := OutcomeAfter(v, l)), l.kind, l.text);
  }

  lemma NextOnFailIff(assocCounts: seq<nat>, studentCount: nat, v: Vars, k: LineKind, line: string)
    ensures NextOn(assocCounts, studentCount, v, k, line).1 == Fail <==>
              && AssocCount(assocCounts, v.outcomeNumber).None?
              && (|| (v.state == AssessmentList && k == ParagraphEnd && v.assessmentCount != MaxAssessment)
                  || (v.state == AttainmentSummaryTable && k == RowEnd)
                  || (v.state == ParseScoreTable && k == CellEnd && v.columnCount != MaxAssessment))
  {
  }

  /** Past the last outcome, the normal state closes the paragraph and starts flushing. */
  lemma OverflowFlushes(assocCounts: seq<nat>, studentCount: nat, v: Vars, l: Line)
    requires v.state == ParseNormal && OutcomeAfter(v, l) > |assocCounts|
    ensures Next(assocCounts, studentCount, v, l).0.state == FlushUnusedOutcomes
    ensures Next(assocCounts, studentCount, v, l).1 == Write(CloseParagraph)
  {
  }

  /** The replacements of the symbols keys[..], stopping as soon as no "$+" is left. */
  function ReplaceFrom(line: string, keys: seq<string>, symbols: map<string, string>): string
    requires forall i :: 0 <= i < |keys| ==> keys[i] in symbols && |keys[i]| > 0
    decreases |keys|
  {
    if keys == [] then line
    else
      var l := Replace(line, keys[0], symbols[keys[0]]);
      if !Contains(l, "$+") then l else ReplaceFrom(l, keys[1..], symbols)
  }

  /** The symbol table's keys are non-empty. */
  predicate SymbolKeys(symbols: map<string, string>)
  {
    forall k :: k in symbols ==> |k| > 0
  }

  /** A written line after replacement: untouched without "$+", else the symbols in ascending key order. */
  function Substitute(line: string, symbols: map<string, string>): string
    requires SymbolKeys(symbols)
  {
    SortedKeysMembers(symbols.Keys);
    if Contains(line, "$+") then ReplaceFrom(line, SortedKeys(symbols.Keys), symbols) else line
  }

  /** A line mentioning no key of the table is written unchanged. */
  lemma {:induction false} ReplaceFromAbsent(line: string, keys: seq<string>, symbols: map<string, string>)
    requires forall i :: 0 <= i < |keys| ==> keys[i] in symbols && |keys[i]| > 0
    requires forall i :: 0 <= i < |keys| ==> !Contains(line, keys[i])
    requires Contains(line, "$+")
    ensures ReplaceFrom(line, keys, symbols) == line
  {
    if keys != [] {
      ReplaceAbsent(line, keys[0], symbols[keys[0]]);
      ReplaceFromAbsent(line, keys[1..], symbols);
    }
  }

  lemma SubstituteAbsent(line: string, symbols: map<string, string>)
    requires SymbolKeys(symbols)
    requires forall k :: k in symbols ==> !Contains(line, k)
    ensures Substitute(line, symbols) == line
  {
    SortedKeysMembers(symbols.Keys);
    if Contains(line, "$+") {
      ReplaceFromAbsent(line, SortedKeys(symbols.Keys), symbols);
    }
  }

  /** The replacement loop over the table in key order, with its early exit. */
  method ReplaceSymbols(line: string, symbols: map<string, string>) returns (r: string)
    requires SymbolKeys(symbols)
    ensures r == Substitute(line, symbols)
  {
    r := line;
    if !Contains(r, "$+") {
      return;
    }
    SortedKeysMembers(symbols.Keys);
    var keys := SortedKeys(symbols.Keys);
    var i := 0;
    while i < |keys|
      invariant 0 <= i <= |keys|
      invariant Contains(r, "$+")
      invariant ReplaceFrom(r, keys[i..], symbols) == Substitute(line, symbols)
    {
      assert keys[i..][1..] == keys[i + 1..];
      r := Replace(r, keys[i], symbols[keys[i]]);
      if !Contains(r, "$+") {
        return;
      }
      i := i + 1;
    }
  }

  /**
   * The actions of the pass on the lines from variables v on, one per line,
   * up to and including the first failure.
   */
  function Actions(assocCounts: seq<nat>, studentCount: nat, v: Vars, lines: seq<Line>, i: nat): (acts: seq<Action>)
    requires i <= |lines|
    ensures |acts| <= |lines| - i
    decreases |lines| - i
  {
    if i == |lines| then []
    else
      var step := Next(assocCounts, studentCount, v, lines[i]);
      if step.1.Fail? then [Fail]
      else [step.1] + Actions(assocCounts, studentCount, step.0, lines, i + 1)
  }

  /** The lines the actions write, each after replacement. */
  function Output(acts: seq<Action>, symbols: map<string, string>): (out: seq<string>)
    requires SymbolKeys(symbols)
    ensures |out| <= |acts|
  {
    if acts == [] then []
    else Output(acts[..|acts| - 1], symbols) + (if acts[|acts| - 1].Write? then [Substitute(acts[|acts| - 1].line, symbols)] else [])
  }

  /** The pass failed when its last action is a failure, and only the last can be. */
  predicate Failed(acts: seq<Action>)
  {
    |acts| > 0 && acts[|acts| - 1].Fail?
  }

  /** Only the last action of a pass can be a failure. */
  lemma {:induction false} FailOnlyLast(assocCounts: seq<nat>, studentCount: nat, v: Vars, lines: seq<Line>, i: nat)
    requires i <= |lines|
    ensures forall j :: 0 <= j < |Actions(assocCounts, studentCount, v, lines, i)| - 1 ==> !Actions(assocCounts, studentCount, v, lines, i)[j].Fail?
    decreases |lines| - i
  {
    if i < |lines| {
      var step := Next(assocCounts, studentCount, v, lines[i]);
      if !step.1.Fail? {
        FailOnlyLast(assocCounts, studentCount, step.0, lines, i + 1);
      }
    }
  }

  /** Flushing unused outcomes goes on until the end marker. */
  lemma NextOnFlushing(assocCounts: seq<nat>, studentCount: nat, v: Vars, k: LineKind, line: string)
    requires v.state == FlushUnusedOutcomes && k != EndLine
    ensures NextOn(assocCounts, studentCount, v, k, line) == (v, Drop)
  {
  }

  /** Once flushing unused outcomes, every line before the end marker is dropped. */
  lemma {:induction false} FlushedToEnd(assocCounts: seq<nat>, studentCount: nat, v: Vars, lines: seq<Line>, i: nat)
    requires i <= |lines| && v.state == FlushUnusedOutcomes
    requires forall j :: i <= j < |lines| ==> lines[j].kind != EndLine
    ensures |Actions(assocCounts, studentCount, v, lines, i)| == |lines| - i
    ensures forall j :: 0 <= j < |lines| - i ==> Actions(assocCounts, studentCount, v, lines, i)[j] == Drop
    decreases |lines| - i
  {
    if i < |lines| {
      var w := v.(outcomeNumber := OutcomeAfter(v, lines[i]));
      NextOnFlushing(assocCounts, studentCount, w, lines[i].kind, lines[i].text);
      FlushedToEnd(assocCounts, studentCount, w, lines, i + 1);
    }
  }

  /** Dropped lines write nothing. */
  lemma {:induction false} DroppedWriteNothing(acts: seq<Action>, symbols: map<string, string>)
    requires SymbolKeys(symbols)
    requires forall i :: 0 <= i < |acts| ==> acts[i] == Drop
    ensures Output(acts, symbols) == []
  {
    if acts != [] {
      DroppedWriteNothing(acts[..|acts| - 1], symbols);
    }
  }

  /** Trims the line once and reads its kind and its outcome marker from the trimmed text. */
  method ClassifyLine(text: string) returns (l: Line)
    ensures l == Classify(text)
  {
    var t := Trim(text);
    var marked := MarkedOutcome(t);
    l := Line(text, Kind(t), marked);
  }

  /** The pass on a line: the same cases as Next, on the variables one at a time. */
  method Step(assocCounts: seq<nat>, studentCount: nat, v0: Vars, l: Line) returns (v: Vars, act: Action)
    ensures (v, act) == Next(assocCounts, studentCount, v0, l)
  {
    v := v0;
    if l.marked.Some? {
      v := v.(outcomeNumber := l.marked.value);
    }
    v, act := StepOn(assocCounts, studentCount, v, l.kind, l.text);
  }

  /** The switch on the state, with the outcome number already updated. */
  method StepOn(assocCounts: seq<nat>, studentCount: nat, v0: Vars, k: LineKind, line: string) returns (v: Vars, act: Action)
    ensures (v, act) == NextOn(assocCounts, studentCount, v0, k, line)
  {
    v := v0;
    act := Write(line);
    match v.state {
      case ParseNormal =>
        if v.outcomeNumber > |assocCounts| {
          act := Write(CloseParagraph);
          v := v.(state := FlushUnusedOutcomes);
        } else if k == ListHeading {
          v := v.(state := AssessmentList, assessmentCount := 0);
        } else if k == SummaryHeading {
          v := v.(state := AttainmentSummaryTable, rowCount := 0, startRowCounting := false, assessmentCount := 0);
        } else if k == RawDataHeading {
          v := v.(state := ParseScoreTable, columnCount := 0, rowCount := 0);
        }
      case AssessmentList =>
        if k == ParagraphEnd {
          if v.assessmentCount == MaxAssessment {
            v := v.(state := ParseNormal);
          } else {
            var count := AssocCount(assocCounts, v.outcomeNumber);
            if count.None? {
              return v, Fail;
            }
            if v.assessmentCount >= count.value {
              v := v.(state := FlushAssessmentList);
            }
          }
          v := v.(assessmentCount := v.assessmentCount + 1);
        }
      case AttainmentSummaryTable =>
        if k == FirstRowLabel {
          v := v.(startRowCounting := true);
        }
        if k == RowEnd {
          var count := AssocCount(assocCounts, v.outcomeNumber);
          if count.None? {
            return v0, Fail;
          }
          v := v.(columnCount := 0);
          if v.startRowCounting {
            v := v.(rowCount := v.rowCount + 1);
          }
          if v.rowCount >= count.value {
            v := v.(state := FlushUnusedRows);
          }
        }
      case FlushAssessmentList =>
        if k == ParagraphEnd {
          if v.assessmentCount == MaxAssessment {
            v := v.(state := ParseNormal);
          }
          v := v.(assessmentCount := v.assessmentCount + 1);
        }
        act := Drop;
      case ParseScoreTable =>
        if k == RowEnd {
          v := v.(columnCount := 0);
          if v.rowCount >= studentCount {
            v := v.(state := FlushUnusedRows);
          }
          v := v.(rowCount := v.rowCount + 1);
        } else if k == CellEnd {
          if v.columnCount == MaxAssessment {
            v := v.(columnCount := -5);
          } else {
            var count := AssocCount(assocCounts, v.outcomeNumber);
            if count.None? {
              return v, Fail;
            }
            if v.columnCount >= count.value {
              v := v.(state := FlushUnusedColumns);
            }
          }
          v := v.(columnCount := v.columnCount + 1);
        }
      case FlushUnusedColumns =>
        if k == CellEnd {
          if v.columnCount == MaxAssessment {
            v := v.(state := ParseScoreTable, columnCount := -5);
          }
          v := v.(columnCount := v.columnCount + 1);
        }
        act := Drop;
      case FlushUnusedRows =>
        if k == TableEnd {
          v := v.(state := ParseNormal);
        } else {
          act := Drop;
        }
      case FlushUnusedOutcomes =>
        if k != EndLine {
          act := Drop;
        } else {
          act := Write(OpenParagraph);
          v := v.(state := ParseNormal, outcomeNumber := 0);
        }
    }
  }

  /**
   * The template pass: the template is read one line at a time with the
   * template reader, each line goes through the state machine and, when
   * written, through the replacement; the pass ends at the last line or at
   * the first out-of-range outcome index.
   */
  method FilterTemplate(assocCounts: seq<nat>, studentCount: nat, symbols: map<string, string>, template: string)
    returns (out: seq<string>, failed: bool)
    requires SymbolKeys(symbols)
    ensures out == Output(Actions(assocCounts, studentCount, Start, ClassifyAll(XmlTemplate.Lines(template, 0)), 0), symbols)
    ensures failed == Failed(Actions(assocCounts, studentCount, Start, ClassifyAll(XmlTemplate.Lines(template, 0)), 0))
  {
    var reader := new XmlTemplate.TemplateReader(template);
    var lines := reader.ReadLines();
    out, failed := FilterFrom(assocCounts, studentCount, symbols, Start, lines);
  }

  /** The read loop from the variables v0 on. */
  method FilterFrom(assocCounts: seq<nat>, studentCount: nat, symbols: map<string, string>, v0: Vars, lines: seq<string>)
    returns (out: seq<string>, failed: bool)
    requires SymbolKeys(symbols)
    ensures out == Output(Actions(assocCounts, studentCount, v0, ClassifyAll(lines), 0), symbols)
    ensures failed == Failed(Actions(assocCounts, studentCount, v0, ClassifyAll(lines), 0))
  {
    out, failed := [], false;
    ghost var ls := ClassifyAll(lines);
    ghost var done: seq<Action> := [];
    var v := v0;
    var i := 0;
    while i < |lines|
      invariant i <= |lines|
      invariant Progress(assocCounts, studentCount, symbols, v0, ls, i, v, done, out)
    {
      var act, out';
      v, act, out' := ReadLine(assocCounts, studentCount, symbols, v0, lines, ls, i, v, done, out);
      if act.Fail? {
        return out', true;
      }
      done, out := done + [act], out';
      i := i + 1;
    }
    assert done + [] == done;
  }

  /** After i lines: the actions so far are done, and out is what they wrote. */
  ghost predicate Progress(assocCounts: seq<nat>, studentCount: nat, symbols: map<string, string>, v0: Vars,
                           ls: seq<Line>, i: nat, v: Vars, done: seq<Action>, out: seq<string>)
  {
    i <= |ls| && SymbolKeys(symbols)
    && Actions(assocCounts, studentCount, v0, ls, 0) == done + Actions(assocCounts, studentCount, v, ls, i)
    && out == Output(done, symbols) && !Failed(done)
  }

  /** Every line of the template, classified. */
  function ClassifyAll(lines: seq<string>): (ls: seq<Line>)
    ensures |ls| == |lines|
    ensures forall i :: 0 <= i < |lines| ==> ls[i] == Classify(lines[i])
  {
    if lines == [] then [] else [Classify(lines[0])] + ClassifyAll(lines[1..])
  }

  /** Line i of the read loop, classified and fed through the state machine and the replacement. */
  method ReadLine(assocCounts: seq<nat>, studentCount: nat, symbols: map<string, string>, ghost v0: Vars, lines: seq<string>,
                  ghost ls: seq<Line>, i: nat, v: Vars, ghost done: seq<Action>, out: seq<string>)
    returns (v': Vars, act: Action, out': seq<string>)
    requires i < |lines| && ls == ClassifyAll(lines)
    requires Progress(assocCounts, studentCount, symbols, v0, ls, i, v, done, out)
    ensures act.Fail? ==> out' == Output(Actions(assocCounts, studentCount, v0, ls, 0), symbols)
    ensures act.Fail? ==> Failed(Actions(assocCounts, studentCount, v0, ls, 0))
    ensures !act.Fail? ==> Progress(assocCounts, studentCount, symbols, v0, ls, i + 1, v', done + [act], out')
  {
    var l := ClassifyLine(lines[i]);
    v', act, out' := FeedLine(assocCounts, studentCount, symbols, v, l, ls, i, done, out);
    if !act.Fail? {
      AppendAssociates(done, act, Actions(assocCounts, studentCount, v', ls, i + 1));
    }
  }

  /** One line of the read loop: its action, and the written line (if any) appended after replacement. */
  method FeedLine(assocCounts: seq<nat>, studentCount: nat, symbols: map<string, string>, v0: Vars, l: Line,
                  ghost ls: seq<Line>, ghost i: nat, ghost done: seq<Action>, out0: seq<string>)
    returns (v: Vars, act: Action, out: seq<string>)
    requires i < |ls| && ls[i] == l && SymbolKeys(symbols) && out0 == Output(done, symbols)
    ensures act.Fail? ==> Actions(assocCounts, studentCount, v0, ls, i) == [Fail]
    ensures act.Fail? ==> out == Output(done + [act], symbols) && Failed(done + [act])
    ensures !act.Fail? ==> Actions(assocCounts, studentCount, v0, ls, i) == [act] + Actions(assocCounts, studentCount, v, ls, i + 1)
    ensures !act.Fail? ==> out == Output(done + [act], symbols)
  {
    v, act := Step(assocCounts, studentCount, v0, l);
    out := out0;
    if act.Write? {
      var written := ReplaceSymbols(act.line, symbols);
      out := out + [written];
    }
    OutputAppend(done, act, symbols);
    AppendFailed(done);
  }

  lemma OutputAppend(acts: seq<Action>, a: Action, symbols: map<string, string>)
    requires SymbolKeys(symbols)
    ensures Output(acts + [a], symbols) == Output(acts, symbols) + (if a.Write? then [Substitute(a.line, symbols)] else [])
  {
    assert (acts + [a])[..|acts|] == acts;
  }

  lemma AppendAssociates<T>(done: seq<T>, a: T, rest: seq<T>)
    ensures done + ([a] + rest) == (done + [a]) + rest
  {
  }

  lemma AppendFailed(acts: seq<Action>)
    ensures Failed(acts + [Fail])
  {
  }
}
