# canvasore outcome-attainment engine in Dafny

canvasore (Canvas Outcome Reporting Engine) reads a course from the Canvas
learning-management system and reports how far each student attains each
course learning outcome. An outcome is tied to parts of the gradebook by
*associations*: a whole assignment group, one assignment, one rubric
criterion of an assignment, or one quiz question group or bank. Each
association carries two KPI thresholds, "exceeds" and "demonstrates".

This project models the scoring core of that application and proves what
it computes:

- **Per-item scores** (`Assignments`): grade recording from submissions,
  with later submissions overwriting earlier ones and a team filter. An
  item is scored as a whole assignment, as a rubric criterion rescaled so
  that the criteria add up to the grade, or as a quiz question group.
  Name lookups over an assignment list are included.
- **Rubrics** (`Rubric`) and **quiz question groups** (`QuestionGroups`):
  rating cells kept in non-increasing point order, competency levels from
  rating names and hashtags, score and rating maps, and per-submission
  quiz scoring.
- **Assignment groups** (`AssignmentGroupScoring`, `AssignmentGroupList`):
  - a drop-lowest and drop-highest window over sorted scores;
  - worst-case and best-case bracketing of ungraded items;
  - the 0.70 rule that decides whether a group result is known;
  - per-outcome sums, percentages and averages across associations.
- **Associations and outcomes** (`Associations`, `Thresholds`, `Outcomes`):
  - constructor normalization;
  - the asymmetric `matches` rule;
  - the threshold dialog's validity rule;
  - outcomes read from and written to JSON.
- **The report** (`OutcomeReport`, `ReportTemplate`, `XmlTemplate`):
  - KPI tiers E/A/I/X;
  - the per-student verdict (Attained, Not Attained or "-");
  - class tallies and percent bands;
  - the line filter that turns a word-processing XML template into the report;
  - the template tokenizer that splits at '>' outside quotes.
- **The JSON format** (`Json`, `JsonParser`, `JsonRoundTrip`): the
  hand-written cursor parser, the dotted-path getters and the writer. A
  save/load round trip is proved for the objects the outcome files hold.
- **The older copy** under `canvas_ore_gr` (`LegacyJson`, `LegacyGroups`,
  `LegacyRubric`, `LegacyOutcomes`): no Unknown bracketing, -1 as the "no
  such group" answer, and associations without thresholds. It is modelled
  separately and contrasted with the main copy.

Java's `Double.NaN` ("unknown score") is the `Unknown` case of
`Scores.Score`. Java doubles are otherwise exact reals. Where a quotient
can divide by zero, `Scores.Double` adds the infinities.

Objects that the source updates in place are classes: assignments, rubrics,
question groups, assignment groups, outcomes, the symbol table, the
threshold dialog and the template reader. Their methods are proved against
specification functions over the same state. Grades fetched from the
network, the teams cache and Java's number parsers enter as parameters.

## Model

| member | source | states |
|---|---|---|
| Scores.Divide | src/main/java/edu/asu/dlsandy/canvas_ore/AssignmentGroup.java:114-117 | a Java double quotient: NaN for unknown points or zero over zero, an infinity for nonzero over zero, the real quotient otherwise |
| Scores.NaNComparesFalse | src/main/java/edu/asu/dlsandy/canvas_ore/AssignmentGroup.java:114-120 | NaN is neither at least nor below a threshold, so both tests fail and NaN is returned |
| Scores.Plus | src/main/java/edu/asu/dlsandy/canvas_ore/AssignmentGroups.java:67 | a sum of doubles is known exactly when both terms are |
| RealSeqs.SortAscPermutation | src/main/java/edu/asu/dlsandy/canvas_ore/AssignmentGroup.java:97-98 | sorting keeps the same entries |
| RealSeqs.SortAscSorted | src/main/java/edu/asu/dlsandy/canvas_ore/AssignmentGroup.java:97-98 | sorting gives an ascending list |
| RealSeqs.SumSortAsc | src/main/java/edu/asu/dlsandy/canvas_ore/AssignmentGroup.java:97-105 | sorting keeps the sum |
| RealSeqs.SortAscMonotone | src/main/java/edu/asu/dlsandy/canvas_ore/AssignmentGroup.java:97-98 | sorting two lists that compare entry by entry keeps them comparing entry by entry |
| RealSeqs.WindowSumEmpty | src/main/java/edu/asu/dlsandy/canvas_ore/AssignmentGroup.java:99-105 | when the drops cover the list the window sums to 0 |
| RealSeqs.WindowSumAll | src/main/java/edu/asu/dlsandy/canvas_ore/AssignmentGroup.java:99-105 | with no drops the window is the whole list |
| RealSeqs.WindowSumMonotone | src/main/java/edu/asu/dlsandy/canvas_ore/AssignmentGroup.java:99-112 | window sums of lists comparing entry by entry compare the same way |
| JavaStrings.SortedKeysSpec | src/main/java/edu/asu/dlsandy/canvas_ore/OutcomeReport.java:506 | the table's keys in ascending String order, each once |
| JavaStrings.TrimSpec | src/main/java/edu/asu/dlsandy/canvas_ore/JsonResultFactory.java:57-62 | a trimmed string has no blank at either end, and is empty exactly when the input is all blanks |
| Json.IsNullTextIgnoresCase | src/main/java/edu/asu/dlsandy/canvas_ore/JsonValue.java:32-38 | the letter-by-letter null test is exactly equalsIgnoreCase("null") |
| Json.MakeValue | src/main/java/edu/asu/dlsandy/canvas_ore/JsonValue.java:32-38 | a value is null exactly when its text is "null" in any letter case, and otherwise keeps the text unchanged |
| Json.SplitSpecifierSpec | src/main/java/edu/asu/dlsandy/canvas_ore/JsonObject.java:76 | split("[.]", 2) cuts at the first '.': head and tail rejoin to the specifier and the head holds no '.'; with no '.' the head is the whole specifier |
| Json.SplitAtFirstDot | src/main/java/edu/asu/dlsandy/canvas_ore/JsonObject.java:76 | a key free of '.', then '.', then a path, splits into exactly that key and that path |
| Json.GetValuePath | src/main/java/edu/asu/dlsandy/canvas_ore/JsonObject.java:56-86 | on a non-empty object: a missing head key gives null, a key alone gives the member's getValue(""), and key.rest gives the member's value for rest, null appended as "null" |
| Json.TypedGettersPath | src/main/java/edu/asu/dlsandy/canvas_ore/JsonObject.java:98-156 | on a non-empty object: a missing head key gives 0, 0.0 and false, otherwise the member answers getInteger, getDouble and getBoolean for the rest of the path |
| Json.EmptyObjectGetters | src/main/java/edu/asu/dlsandy/canvas_ore/JsonObject.java:56-150 | an empty object answers every specifier with "", 0, 0.0 and false |
| Json.ValueGetters | src/main/java/edu/asu/dlsandy/canvas_ore/JsonValue.java:32-95 | a value built from text: with "" getValue gives the text or null, getInteger the parsed int or 0, getDouble NaN for "null" else the parsed double or 0.0; any other specifier gives "", 0, 0.0; getBoolean holds exactly for "" and "true" in any case |
| Json.WriteToFile | src/main/java/edu/asu/dlsandy/canvas_ore/JsonValue.java:112-128 | writing any null-free tree appends exactly its serialization to the writer |
| Json.WriteObject | src/main/java/edu/asu/dlsandy/canvas_ore/JsonObject.java:162-177 | an object is written as '{', its members, '}' |
| Json.WriteMembers | src/main/java/edu/asu/dlsandy/canvas_ore/JsonObject.java:165-173 | the entry loop appends the members in key order, separated by ',' |
| Json.WriteMember | src/main/java/edu/asu/dlsandy/canvas_ore/JsonObject.java:167-172 | one entry is the separator unless first, then "key": and the value's text |
| JsonParser.CloseQuoteFirst | src/main/java/edu/asu/dlsandy/canvas_ore/JsonResultFactory.java:24-31 | the closing quote found is the first quote not preceded by a backslash; None means the string never closes |
| JsonParser.QuotedText | src/main/java/edu/asu/dlsandy/canvas_ore/JsonResultFactory.java:19-34 | a string read starts at a quote, is the verbatim text up to the closing quote and ends just past it |
| JsonParser.NextDelimiterFirst | src/main/java/edu/asu/dlsandy/canvas_ore/JsonResultFactory.java:40-50 | an unquoted value ends at the first ',', '}' or ']'; None means there is no delimiter left |
| JsonParser.RawText | src/main/java/edu/asu/dlsandy/canvas_ore/JsonResultFactory.java:40-50 | an unquoted value is the text up to the delimiter, and the cursor is left on the delimiter |
| JsonParser.ValueAt | src/main/java/edu/asu/dlsandy/canvas_ore/JsonResultFactory.java:67-157 | a successful read never moves the cursor back, and moves it forward for a quoted value, an array or an object |
| JsonParser.ItemsFrom | src/main/java/edu/asu/dlsandy/canvas_ore/JsonResultFactory.java:74-96 | a successful array read yields an array and moves past the ']' |
| JsonParser.MembersFrom | src/main/java/edu/asu/dlsandy/canvas_ore/JsonResultFactory.java:110-136 | a successful object read yields an object and moves forward |
| JsonParser.MemberValue | src/main/java/edu/asu/dlsandy/canvas_ore/JsonResultFactory.java:117-135 | the rest of a member yields an object and moves forward |
| JsonParser.ObjectStart | src/main/java/edu/asu/dlsandy/canvas_ore/JsonResultFactory.java:99-110 | an object that does not start "{}" is read by the member loop from the first key |
| JsonParser.KeyFails | src/main/java/edu/asu/dlsandy/canvas_ore/JsonResultFactory.java:111-119 | a missing key, or a key not followed by ':', makes the object null |
| JsonParser.MemberFails | src/main/java/edu/asu/dlsandy/canvas_ore/JsonResultFactory.java:121-123 | a member value that fails makes the object fail the same way |
| JsonParser.MemberRead | src/main/java/edu/asu/dlsandy/canvas_ore/JsonResultFactory.java:121-135 | after a member value: end of text is null, '}' closes, ',' is skipped, anything else starts the next key |
| JsonParser.ItemRead | src/main/java/edu/asu/dlsandy/canvas_ore/JsonResultFactory.java:76-95 | after an element: end of text is null, ']' closes, ',' is skipped, anything else is read as the next element |
| JsonParser.ParseBlank | src/main/java/edu/asu/dlsandy/canvas_ore/JsonResultFactory.java:68 | text that trims to nothing reads as null |
| JsonParser.ParseBareScalar | src/main/java/edu/asu/dlsandy/canvas_ore/JsonResultFactory.java:150-153 | an unquoted scalar with no delimiter after it reads as null |
| JsonParser.ArrayElementMustOpen | src/main/java/edu/asu/dlsandy/canvas_ore/JsonResultFactory.java:74-92 | an array element that starts with neither '"' nor '{' makes the array null |
| JsonParser.KeyMustOpen | src/main/java/edu/asu/dlsandy/canvas_ore/JsonResultFactory.java:111-112 | an object key that does not start with a quote makes the object null |
| JsonParser.EmptyObjectSkipsNext | src/main/java/edu/asu/dlsandy/canvas_ore/JsonResultFactory.java:105-107 | "{}" reads as an empty object with the cursor three places on, past the character after it |
| JsonParser.EmptyObjectLastFails | src/main/java/edu/asu/dlsandy/canvas_ore/JsonResultFactory.java:105-107 | so "{}" as the last element of an array or object makes the whole text null, while "{}" alone reads |
| JsonParser.TruncatedFails | src/main/java/edu/asu/dlsandy/canvas_ore/JsonResultFactory.java:99-137 | a text cut off inside an object fails with an index out of bounds |
| JsonParser.DuplicateKeyReplaces | src/main/java/edu/asu/dlsandy/canvas_ore/JsonResultFactory.java:126 | a repeated key keeps the later value |
| JsonParser.JsonResultFactory.GetString | src/main/java/edu/asu/dlsandy/canvas_ore/JsonResultFactory.java:19-34 | getString returns QuotedText's text and moves the cursor past the closing quote, or returns null |
| JsonParser.JsonResultFactory.GetRaw | src/main/java/edu/asu/dlsandy/canvas_ore/JsonResultFactory.java:40-50 | getRaw returns RawText's text with the cursor on the delimiter, or null with the cursor at the end |
| JsonParser.JsonResultFactory.Build | src/main/java/edu/asu/dlsandy/canvas_ore/JsonResultFactory.java:57-62 | build trims the input and returns Parse(input) |
| JsonParser.JsonResultFactory.Builder | src/main/java/edu/asu/dlsandy/canvas_ore/JsonResultFactory.java:67-157 | builder returns the tree ValueAt reads at the cursor and leaves the cursor where ValueAt ends |
| JsonParser.JsonResultFactory.BuildArray | src/main/java/edu/asu/dlsandy/canvas_ore/JsonResultFactory.java:70-97 | the '[' branch agrees with ValueAt |
| JsonParser.JsonResultFactory.BuildObject | src/main/java/edu/asu/dlsandy/canvas_ore/JsonResultFactory.java:99-138 | the '{' branch agrees with ValueAt, "{}" included |
| JsonParser.JsonResultFactory.ReadMembers | src/main/java/edu/asu/dlsandy/canvas_ore/JsonResultFactory.java:110-137 | the member loop agrees with MembersFrom |
| JsonRoundTrip.ValueBack | src/main/java/edu/asu/dlsandy/canvas_ore/JsonResultFactory.java:67-157 | a storable tree written at position p and followed by a delimiter reads back as the same tree, ending just after its text |
| JsonRoundTrip.ObjectBack | src/main/java/edu/asu/dlsandy/canvas_ore/JsonObject.java:162-177 | a written object reads back as the same object |
| JsonRoundTrip.MembersBack | src/main/java/edu/asu/dlsandy/canvas_ore/JsonResultFactory.java:110-137 | the written members from any key on read back as those members |
| JsonRoundTrip.ArrayBack | src/main/java/edu/asu/dlsandy/canvas_ore/JsonResultFactory.java:70-97 | a written array reads back as the same array |
| JsonRoundTrip.ElementsBack | src/main/java/edu/asu/dlsandy/canvas_ore/JsonResultFactory.java:74-96 | the written elements from any index on read back as those elements |
| JsonRoundTrip.ElementOpens | src/main/java/edu/asu/dlsandy/canvas_ore/JsonValue.java:123 | a storable array element is written starting with '"' or '{', the only starts the array loop accepts |
| JsonRoundTrip.EmptyRoundTrip | src/main/java/edu/asu/dlsandy/canvas_ore/JsonObject.java:162-177 | an empty object is written "{}" and reads back as an empty object |
| JsonRoundTrip.ObjectRoundTrip | src/main/java/edu/asu/dlsandy/canvas_ore/JsonResultFactory.java:57-62 | the whole text of a non-empty storable object reads back as that object |
| JsonRoundTrip.RoundTrip | src/main/java/edu/asu/dlsandy/canvas_ore/JsonObject.java:162-177 | every storable object written by writeToFile reads back through build as the same object |
| LegacyJson.LegacyJsonResultFactory.GetString | canvas_ore_gr/src/main/java/edu/asu/dlsandy/JsonResultFactory.java:19-35 | the older getString (flag cleared, then set on a backslash) reads exactly QuotedText, as the main copy's does |
| LegacyJson.LegacyJsonResultFactory.GetRaw | canvas_ore_gr/src/main/java/edu/asu/dlsandy/JsonResultFactory.java:41-52 | the older getRaw reads exactly RawText |
| LegacyJson.LegacyJsonResultFactory.Build | canvas_ore_gr/src/main/java/edu/asu/dlsandy/JsonResultFactory.java:59-64 | the older build returns Parse(input): the two readers agree on every input |
| LegacyJson.LegacyJsonResultFactory.Builder | canvas_ore_gr/src/main/java/edu/asu/dlsandy/JsonResultFactory.java:69-162 | the older builder agrees with ValueAt, empty input giving null |
| LegacyJson.LegacyJsonResultFactory.BuildArray | canvas_ore_gr/src/main/java/edu/asu/dlsandy/JsonResultFactory.java:72-99 | arrays accept only elements starting with '"' or '{', as ValueAt reads them |
| LegacyJson.LegacyJsonResultFactory.BuildObject | canvas_ore_gr/src/main/java/edu/asu/dlsandy/JsonResultFactory.java:101-140 | "{}" moves the cursor two places past the '{' consumed, as ValueAt reads it |
| LegacyJson.LegacyJsonResultFactory.ReadMembers | canvas_ore_gr/src/main/java/edu/asu/dlsandy/JsonResultFactory.java:112-139 | the older member loop agrees with MembersFrom |
| Associations.Normalize | src/main/java/edu/asu/dlsandy/canvas_ore/OutcomeAssociation.java:37-48 | an optional name is dropped exactly when it is null or empty, and kept unchanged otherwise |
| Associations.MakeSelector | src/main/java/edu/asu/dlsandy/canvas_ore/OutcomeAssociation.java:35-49 | the constructor keeps the group name and normalizes each of the four optional names |
| Associations.MakeAssociation | src/main/java/edu/asu/dlsandy/canvas_ore/OutcomeAssociation.java:35-49 | an association holds the normalized selector and the thresholds it was given |
| Associations.MakeSelectorKeepsNormalized | src/main/java/edu/asu/dlsandy/canvas_ore/OutcomeAssociation.java:35-49 | constructing again from a constructed association's names gives the same association |
| Associations.Copy | src/main/java/edu/asu/dlsandy/canvas_ore/OutcomeAssociation.java:54-60 | the copy constructor copies all five names |
| Associations.MatchesIff | src/main/java/edu/asu/dlsandy/canvas_ore/OutcomeAssociation.java:74-85 | matches holds iff group, assignment and criterion are equal and the receiver's question group and bank are absent or equal |
| Associations.MatchesReflexive | src/main/java/edu/asu/dlsandy/canvas_ore/OutcomeAssociation.java:74-85 | every association matches itself |
| Associations.CopyMatches | src/main/java/edu/asu/dlsandy/canvas_ore/OutcomeAssociation.java:54-60 | a copy and its original match each other |
| Associations.MatchesNotSymmetric | src/main/java/edu/asu/dlsandy/canvas_ore/OutcomeAssociation.java:82-83 | a receiver without a question group matches one with it, but not the other way round |
| Associations.ToString | src/main/java/edu/asu/dlsandy/canvas_ore/OutcomeAssociation.java:125-135 | the label is the criterion, else "group -- bank" or the group, else the assignment, else the group name |
| Thresholds.ValidIff | src/main/java/edu/asu/dlsandy/canvas_ore/ThresholdDlg.java:42-47 | each guard rejects on its own, and a pair is valid iff 0 <= demonstrates < exceeds <= 1 |
| Thresholds.DefaultsValid | src/main/java/edu/asu/dlsandy/canvas_ore/ThresholdDlg.java:62-63 | the default pair passes the dialog's own check |
| Thresholds.Seed | src/main/java/edu/asu/dlsandy/canvas_ore/ThresholdDlg.java:58-64 | the dialog starts from the association's pair when valid and from the defaults otherwise, so it always starts valid |
| Thresholds.FieldValue | src/main/java/edu/asu/dlsandy/canvas_ore/ThresholdDlg.java:116-120 | a field that parses gives its number and one that does not gives 0 |
| Thresholds.ThresholdDialog.constructor | src/main/java/edu/asu/dlsandy/canvas_ore/ThresholdDlg.java:54-64 | the dialog holds the seeded pair and has not been accepted |
| Thresholds.ThresholdDialog.Done | src/main/java/edu/asu/dlsandy/canvas_ore/ThresholdDlg.java:78-91 | Done closes and accepts exactly when the pair is valid and never changes the pair |
| Thresholds.ThresholdDialog.UseDefaults | src/main/java/edu/asu/dlsandy/canvas_ore/ThresholdDlg.java:96-101 | Use Defaults as written sets both thresholds to the exceeds default and accepts |
| Thresholds.UseDefaultsInvalid | src/main/java/edu/asu/dlsandy/canvas_ore/ThresholdDlg.java:98-99 | the pair Use Defaults sets is one areThresholdsValid rejects |
| Thresholds.ThresholdDialog.UseDefaultPair | src/main/java/edu/asu/dlsandy/canvas_ore/ThresholdDlg.java:62-63 | Use Defaults as intended sets each threshold to its own default, a valid pair, and accepts |
| Thresholds.ThresholdDialog.ExceedsFocusLost | src/main/java/edu/asu/dlsandy/canvas_ore/ThresholdDlg.java:114-121 | leaving the exceeds field stores its parsed value (0 when it does not parse) and changes nothing else |
| Thresholds.ThresholdDialog.DemonstratesFocusLost | src/main/java/edu/asu/dlsandy/canvas_ore/ThresholdDlg.java:136-143 | leaving the demonstrates field stores its parsed value (0 when it does not parse) and changes nothing else |
| Thresholds.ThresholdDialog.Finish | src/main/java/edu/asu/dlsandy/canvas_ore/ThresholdDlg.java:153-162 | after the dialog, an accepted pair stays and a cancelled one is re-seeded |
| Outcomes.CleanDescriptionKeepsPlainText | src/main/java/edu/asu/dlsandy/canvas_ore/CanvasOutcome.java:36 | a description without an escaped "<" is stored unchanged |
| Outcomes.Threshold | src/main/java/edu/asu/dlsandy/canvas_ore/CanvasOutcome.java:46-47 | a missing threshold reads as -1, and a present one as getDouble's number |
| Outcomes.AssociationsFrom | src/main/java/edu/asu/dlsandy/canvas_ore/CanvasOutcome.java:39-50 | one association per array element |
| Outcomes.LoadedAssociations | src/main/java/edu/asu/dlsandy/canvas_ore/CanvasOutcome.java:37-50 | no "associations" member gives no associations, else one per element |
| Outcomes.OptionalMember | src/main/java/edu/asu/dlsandy/canvas_ore/CanvasOutcome.java:104-115 | an optional name is written under its key only when present |
| Outcomes.SelectorMembers | src/main/java/edu/asu/dlsandy/canvas_ore/CanvasOutcome.java:103-115 | assignment_group_name is always written, each optional name exactly when present, and no other key |
| Outcomes.AssociationJson | src/main/java/edu/asu/dlsandy/canvas_ore/CanvasOutcome.java:102-117 | an association object holds its names and both thresholds as shown by Double.toString |
| Outcomes.AssociationsJson | src/main/java/edu/asu/dlsandy/canvas_ore/CanvasOutcome.java:101-119 | one object per association |
| Outcomes.ReadMember | src/main/java/edu/asu/dlsandy/canvas_ore/JsonObject.java:76-84 | a member stored under a key without '.' reads back as its text |
| Outcomes.ReadAbsent | src/main/java/edu/asu/dlsandy/canvas_ore/JsonObject.java:86 | a key that is not stored reads as null |
| Outcomes.OptionalNameBack | src/main/java/edu/asu/dlsandy/canvas_ore/CanvasOutcome.java:41-45 | an optional name written only when present reads back, after the constructor's normalization, as the same optional name |
| Outcomes.ReadNumber | src/main/java/edu/asu/dlsandy/canvas_ore/JsonObject.java:147-156 | a stored number reads back through getDouble as the parsed number |
| Outcomes.AssociationRoundTrip | src/main/java/edu/asu/dlsandy/canvas_ore/CanvasOutcome.java:40-48 | an association written by toJson is read back by the JSON constructor as the same association |
| Outcomes.ReadBack | src/main/java/edu/asu/dlsandy/canvas_ore/CanvasOutcome.java:40-48 | any object holding an association's written members reads back as that association |
| Outcomes.ReadNames | src/main/java/edu/asu/dlsandy/canvas_ore/CanvasOutcome.java:41-45 | the five names read back from a written association |
| Outcomes.ReadThresholds | src/main/java/edu/asu/dlsandy/canvas_ore/CanvasOutcome.java:46-47 | both thresholds read back from a written association |
| Outcomes.WrittenListLoadable | src/main/java/edu/asu/dlsandy/canvas_ore/CanvasOutcome.java:39-50 | every element toJson writes can be read back |
| Outcomes.AssociationListRoundTrip | src/main/java/edu/asu/dlsandy/canvas_ore/CanvasOutcome.java:101-119 | the written association array reads back as the same list, in order |
| Outcomes.AssociationsRoundTrip | src/main/java/edu/asu/dlsandy/canvas_ore/CanvasOutcome.java:95-122 | the associations of an outcome written by toJson read back as the same list |
| Outcomes.FirstMatch | src/main/java/edu/asu/dlsandy/canvas_ore/CanvasOutcome.java:84-89 | the first index whose association matches, or None exactly when none matches |
| Outcomes.Lookup | src/main/java/edu/asu/dlsandy/canvas_ore/CanvasOutcome.java:84-89 | the first stored association that matches, with no earlier one matching; None exactly when none matches |
| Outcomes.LookupIffExists | src/main/java/edu/asu/dlsandy/canvas_ore/CanvasOutcome.java:77-89 | getAssociation finds one exactly when associationExists holds |
| Outcomes.AllAssociationsInCourse | src/main/java/edu/asu/dlsandy/canvas_ore/CanvasOutcome.java:57-65 | the documented meaning: true iff every association names an assignment the course contains |
| Outcomes.AssociationsExistInverted | src/main/java/edu/asu/dlsandy/canvas_ore/CanvasOutcome.java:65-72 | associationsExist as written is the negation of the documented meaning |
| Outcomes.CanvasOutcome.constructor | src/main/java/edu/asu/dlsandy/canvas_ore/CanvasOutcome.java:24-28 | a blank outcome has empty title and description and no associations |
| Outcomes.CanvasOutcome.FromJson | src/main/java/edu/asu/dlsandy/canvas_ore/CanvasOutcome.java:34-51 | the JSON constructor reads the title, the cleaned description and the associations in array order |
| Outcomes.CanvasOutcome.AssociationsExist | src/main/java/edu/asu/dlsandy/canvas_ore/CanvasOutcome.java:65-72 | returns true iff some association is not in the course |
| Outcomes.CanvasOutcome.AssociationExists | src/main/java/edu/asu/dlsandy/canvas_ore/CanvasOutcome.java:77-82 | true iff some stored association matches the argument |
| Outcomes.CanvasOutcome.GetAssociation | src/main/java/edu/asu/dlsandy/canvas_ore/CanvasOutcome.java:84-89 | returns the first matching association, or null |
| Outcomes.CanvasOutcome.ToJson | src/main/java/edu/asu/dlsandy/canvas_ore/CanvasOutcome.java:95-122 | writes the title, the trimmed description and the associations in list order |
| Outcomes.CanvasOutcome.SetTitle | src/main/java/edu/asu/dlsandy/canvas_ore/CanvasOutcome.java:143 | changes only the title |
| Outcomes.CanvasOutcome.SetDescription | src/main/java/edu/asu/dlsandy/canvas_ore/CanvasOutcome.java:149 | changes only the description |
| Rubric.NameLevel | src/main/java/edu/asu/dlsandy/canvas_ore/CanvasRubric.java:125-132 | the level named by the lower-cased rating name: E, M, I or X for exactly the names listed, else "unknown" |
| Rubric.CompetencyLevel | src/main/java/edu/asu/dlsandy/canvas_ore/CanvasRubric.java:125-143 | a level is always one of E, M, I, X or unknown, and unknown only when the name lists none |
| Rubric.HashtagPrecedence | src/main/java/edu/asu/dlsandy/canvas_ore/CanvasRubric.java:135-143 | a long-description hashtag overrides the name, with #exceeds over #meets over #insufficient over #not_attempted |
| Rubric.NameDecidesWithoutTags | src/main/java/edu/asu/dlsandy/canvas_ore/CanvasRubric.java:126-132 | without a hashtag, two names that name the same level give the same level |
| Rubric.MakeCell | src/main/java/edu/asu/dlsandy/canvas_ore/CanvasRubric.java:116-148 | a rating cell keeps its points, id and texts and takes the classified level |
| Rubric.InsertionIndex | src/main/java/edu/asu/dlsandy/canvas_ore/CanvasRubric.java:49-57 | addOrdered's position: every earlier cell has at least the new points and the cell there has fewer |
| Rubric.InsertOrderedMultiset | src/main/java/edu/asu/dlsandy/canvas_ore/CanvasRubric.java:48-58 | inserting adds exactly the new cell: length grows by one and the cells are a permutation of the old plus the new |
| Rubric.InsertOrderedShape | src/main/java/edu/asu/dlsandy/canvas_ore/CanvasRubric.java:50-57 | the new cell lands before the first cell with strictly fewer points, else at the end, the others keeping their order |
| Rubric.InsertOrderedKeepsOrder | src/main/java/edu/asu/dlsandy/canvas_ore/CanvasRubric.java:48-58 | inserting into a non-increasing row keeps it non-increasing, ties after the existing equal cells |
| Rubric.RubricRow.constructor | src/main/java/edu/asu/dlsandy/canvas_ore/CanvasRubric.java:64-78 | a row keeps its fields and its cells are the ratings inserted one by one: non-increasing and a permutation of the ratings |
| Rubric.AddAllOrdered | src/main/java/edu/asu/dlsandy/canvas_ore/CanvasRubric.java:72-77 | the rating loop builds InsertAll of the ratings |
| Rubric.AddOrdered | src/main/java/edu/asu/dlsandy/canvas_ore/CanvasRubric.java:48-58 | the loop inserts exactly as InsertOrdered |
| Rubric.InsertAllOrdered | src/main/java/edu/asu/dlsandy/canvas_ore/CanvasRubric.java:72-77 | inserting all ratings gives a non-increasing permutation of them |
| Rubric.ScoresAfterSpec | src/main/java/edu/asu/dlsandy/canvas_ore/CanvasRubric.java:235-247 | after setRubricScores the user holds every given row score, other row ids and other users are unchanged, and empty scores change nothing |
| Rubric.CellsLevel | src/main/java/edu/asu/dlsandy/canvas_ore/CanvasRubric.java:268-272 | a level found comes from a cell with the rating id |
| Rubric.CellsLevelLast | src/main/java/edu/asu/dlsandy/canvas_ore/CanvasRubric.java:268-272 | the last cell with the rating id decides the level |
| Rubric.LevelsOverSpec | src/main/java/edu/asu/dlsandy/canvas_ore/CanvasRubric.java:257-274 | a row id gets a level exactly when it is rated and some row with that id has a cell with the rating id, and the level is that cell's |
| Rubric.RatingsAfterSpec | src/main/java/edu/asu/dlsandy/canvas_ore/CanvasRubric.java:255-275 | after setRubricRatings: other users unchanged, the user present once any rating is given, matched row ids hold their level and unmatched ones keep their old value |
| Rubric.ScaledSumFactor | src/main/java/edu/asu/dlsandy/canvas_ore/CanvasRubric.java:284-293 | scaling every row score by c scales the sum by c |
| Rubric.ScaledRowsAddUpToGrade | src/main/java/edu/asu/dlsandy/canvas_ore/Assignment.java:218-225 | row scores scaled by grade / total add up to the grade |
| Rubric.FirstRowNamed | src/main/java/edu/asu/dlsandy/canvas_ore/CanvasRubric.java:301-306 | the first row whose description equals the name, or None when no row has it |
| Rubric.CanvasRubric.constructor | src/main/java/edu/asu/dlsandy/canvas_ore/CanvasRubric.java:181-190 | a rubric from an array holds its rows and empty score and rating maps; without an array it has no rows and its maps are marked missing |
| Rubric.CanvasRubric.SetRubricScores | src/main/java/edu/asu/dlsandy/canvas_ore/CanvasRubric.java:235-247 | the new score map is ScoresAfter of the old one and ratings are unchanged; a rubric without maps can only be given an empty score map |
| Rubric.CanvasRubric.SetRubricRatings | src/main/java/edu/asu/dlsandy/canvas_ore/CanvasRubric.java:255-275 | the new ratings map is RatingsAfter of the old one and scores are unchanged; a rubric without maps can only be given an empty ratings map |
| Rubric.CanvasRubric.GetStudentPointSum | src/main/java/edu/asu/dlsandy/canvas_ore/CanvasRubric.java:284-293 | on a rubric with maps, the loop returns 0 for a user without scores, else the sum of all the user's row scores |
| Rubric.CanvasRubric.CriterionIdFromName | src/main/java/edu/asu/dlsandy/canvas_ore/CanvasRubric.java:301-306 | an id is found iff some row has the name, and it is the id of the first such row |
| Rubric.CanvasRubric.MaximumOutcomePoints | src/main/java/edu/asu/dlsandy/canvas_ore/CanvasRubric.java:339-344 | 0 for an unknown name, else the points of the first row with the name |
| Rubric.CanvasRubric.Contains | src/main/java/edu/asu/dlsandy/canvas_ore/CanvasRubric.java:349-356 | contains(n) iff getCriterionIdFromName(n) is not null |
| Rubric.CanvasRubric.StudentOutcomePoints | src/main/java/edu/asu/dlsandy/canvas_ore/CanvasRubric.java:314-319 | 0 for an unknown name or a user without scores, else the user's score for the named row |
| Rubric.CanvasRubric.StudentOutcomeKpiAttainment | src/main/java/edu/asu/dlsandy/canvas_ore/CanvasRubric.java:327-332 | "X" for an unknown name or a user without ratings, else the stored level, null when the row is unrated |
| Rubric.RecordLevels | src/main/java/edu/asu/dlsandy/canvas_ore/CanvasRubric.java:257-274 | the rating loop adds AllLevels of the ratings to the user's entry |
| Rubric.FindLevel | src/main/java/edu/asu/dlsandy/canvas_ore/CanvasRubric.java:266-273 | the row search returns RowsLevel: the level of the last matching cell of the last matching row |
| Rubric.ScoresStep | src/main/java/edu/asu/dlsandy/canvas_ore/CanvasRubric.java:241-245 | one loop step (create the entry if missing, then put) extends ScoresAfter by one score |
| QuestionGroups.ScoresDiffer | src/main/java/edu/asu/dlsandy/canvas_ore/CanvasQuestionGroup.java:113 | two scores differ under Java's != unless both are numbers and equal, so NaN always differs |
| QuestionGroups.CorrectAtMostInGroup | src/main/java/edu/asu/dlsandy/canvas_ore/CanvasQuestionGroup.java:130-138 | a submission never has more correct answers in a group than questions in it |
| QuestionGroups.UnansweredAddsNothing | src/main/java/edu/asu/dlsandy/canvas_ore/CanvasQuestionGroup.java:132-133 | an unanswered question adds no points |
| QuestionGroups.PrefixCount | src/main/java/edu/asu/dlsandy/canvas_ore/CanvasQuestionGroup.java:130-138 | the count over the first n questions depends only on those questions |
| QuestionGroups.LoadedKeys | src/main/java/edu/asu/dlsandy/canvas_ore/CanvasQuestionGroup.java:111-139 | after loading, a student has a score exactly when some submission of theirs matches its kept score |
| QuestionGroups.LoadedLastWins | src/main/java/edu/asu/dlsandy/canvas_ore/CanvasQuestionGroup.java:139 | the last kept submission of a student sets the student's score |
| QuestionGroups.QuestionGroup.constructor | src/main/java/edu/asu/dlsandy/canvas_ore/CanvasQuestionGroup.java:36-57 | a group keeps its id, name, pick count, points per question and bank, with no scores |
| QuestionGroups.QuestionGroup.ScoreSubmission | src/main/java/edu/asu/dlsandy/canvas_ore/CanvasQuestionGroup.java:129-138 | a submission scores the points per question times the number of its questions in the group answered "true" in any letter case |
| QuestionGroups.QuestionGroup.LoadGrades | src/main/java/edu/asu/dlsandy/canvas_ore/CanvasQuestionGroup.java:101-166 | loading clears the scores, then scores each kept submission in order, and returns true |
| QuestionGroups.QuestionGroup.StudentOutcomePoints | src/main/java/edu/asu/dlsandy/canvas_ore/CanvasQuestionGroup.java:174-179 | the stored score of the student, or 0 without one |
| QuestionGroups.QuestionGroup.MaximumOutcomePoints | src/main/java/edu/asu/dlsandy/canvas_ore/CanvasQuestionGroup.java:185-187 | the points per question times the pick count: never negative for non-negative points and pick count, 0 for a pick count of 0 |
| QuestionGroups.ScoreWithinMaximum | src/main/java/edu/asu/dlsandy/canvas_ore/CanvasQuestionGroup.java:185-187 | with non-negative points and a pick count covering the group's questions, a submission scores between 0 and the group's maximum |
| QuestionGroups.BanklessMatchesOnName | src/main/java/edu/asu/dlsandy/canvas_ore/CanvasQuestionGroups.java:92-96 | a group without a bank matches on its name alone, whatever bank the association names |
| QuestionGroups.FirstMatch | src/main/java/edu/asu/dlsandy/canvas_ore/CanvasQuestionGroups.java:91-103 | the first matching group, or None when no group matches |
| QuestionGroups.GetById | src/main/java/edu/asu/dlsandy/canvas_ore/CanvasQuestionGroups.java:61-68 | the first group with the id, or null when none has it |
| QuestionGroups.StudentOutcomePoints | src/main/java/edu/asu/dlsandy/canvas_ore/CanvasQuestionGroups.java:89-105 | 0 when no group matches the association, else the score of the first matching group |
| QuestionGroups.MaximumOutcomePoints | src/main/java/edu/asu/dlsandy/canvas_ore/CanvasQuestionGroups.java:113-129 | 0 when no group matches the association, else the maximum of the first matching group |
| QuestionGroups.PointsAndMaximumAgree | src/main/java/edu/asu/dlsandy/canvas_ore/CanvasQuestionGroups.java:89-129 | points and maximum both come from the same first matching group, and both are 0 when no group matches |
| Assignments.RecordedKeys | src/main/java/edu/asu/dlsandy/canvas_ore/Assignment.java:141-165 | after loading, a student has a grade exactly when one of their submissions has a matching grade and passes the team filter |
| Assignments.RecordedLastWins | src/main/java/edu/asu/dlsandy/canvas_ore/Assignment.java:157-164 | a student's grade is the score of their last recorded submission |
| Assignments.TeamFilter | src/main/java/edu/asu/dlsandy/canvas_ore/Assignment.java:151-160 | with teams known and the group not graded individually, only members of a team get a grade, and every grade comes from a submission whose grade matches |
| Assignments.Rescaled | src/main/java/edu/asu/dlsandy/canvas_ore/Assignment.java:218-224 | a zero rubric sum gives 0; otherwise the rubric points are scaled by the grade over the rubric sum, an unknown grade giving an unknown result |
| Assignments.RescaledIdentity | src/main/java/edu/asu/dlsandy/canvas_ore/Assignment.java:218-224 | when the grade equals the rubric sum the rubric points come back unchanged |
| Assignments.Assignment.constructor | src/main/java/edu/asu/dlsandy/canvas_ore/Assignment.java:45-64 | an assignment is a quiz exactly when its submission types are "online_quiz", only a quiz has question groups, and it starts with no grades |
| Assignments.Assignment.LoadGrades | src/main/java/edu/asu/dlsandy/canvas_ore/Assignment.java:114-197 | loading replaces the grades by the recorded grades of the submissions, stores their rubric scores, leaves the KPI ratings alone and returns true; a rubric without maps receives only empty score maps |
| Assignments.Assignment.Grade | src/main/java/edu/asu/dlsandy/canvas_ore/Assignment.java:210-214 | the stored grade of a student, 0 for a student without one |
| Assignments.Assignment.StudentOutcomePoints | src/main/java/edu/asu/dlsandy/canvas_ore/Assignment.java:208-232 | 0 without a grade; the grade for the whole assignment; rescaled rubric points for a criterion, on a rubric that has its score maps; the quiz groups' points for a question group, or 0 when not a quiz |
| Assignments.Assignment.MaximumOutcomePoints | src/main/java/edu/asu/dlsandy/canvas_ore/Assignment.java:242-253 | the points possible for the whole assignment, the criterion's maximum for a rubric criterion, otherwise the quiz groups' maximum |
| Assignments.Assignment.Contains | src/main/java/edu/asu/dlsandy/canvas_ore/Assignment.java:259-261 | true exactly when some rubric row has the criterion as its description |
| Assignments.MissingStudentScoresZero | src/main/java/edu/asu/dlsandy/canvas_ore/Assignment.java:210 | a student without a grade scores 0 toward any association |
| Assignments.ZeroRubricSumScoresZero | src/main/java/edu/asu/dlsandy/canvas_ore/Assignment.java:221 | a zero rubric point sum gives 0 for any criterion |
| Assignments.GradeEqualToSumKeepsRawScores | src/main/java/edu/asu/dlsandy/canvas_ore/Assignment.java:218-224 | when the grade equals the rubric sum, the criterion's points are the raw rubric points |
| Assignments.NonQuizQuestionGroupScoresZero | src/main/java/edu/asu/dlsandy/canvas_ore/Assignment.java:227-231 | a question-group association on an assignment that is not a quiz scores 0 |
| Assignments.FirstNamed | src/main/java/edu/asu/dlsandy/canvas_ore/Assignments.java:104-112 | the index of the first assignment with the name, or None when none has it |
| Assignments.IndexByName | src/main/java/edu/asu/dlsandy/canvas_ore/Assignments.java:104-112 | the index of the first assignment with the name, or -1 exactly when none has it |
| Assignments.AssignmentByName | src/main/java/edu/asu/dlsandy/canvas_ore/Assignments.java:117-122 | the first assignment with the name, or null when none has it |
| Assignments.Named | src/main/java/edu/asu/dlsandy/canvas_ore/Assignments.java:117-122 | a found assignment is the first in the list with the name; None exactly when no assignment has it |
| Assignments.LookupsAgree | src/main/java/edu/asu/dlsandy/canvas_ore/Assignments.java:104-122 | the index search and the object search find the same assignment |
| Assignments.LoadGrades | src/main/java/edu/asu/dlsandy/canvas_ore/Assignments.java:127-133 | every assignment of the list holds the grades loaded from its submissions, and the result is true whatever each load returns |
| AssignmentGroupScoring.WorstCase | src/main/java/edu/asu/dlsandy/canvas_ore/AssignmentGroup.java:84-96 | one entry per assignment: its grade, or 0 when the grade is unknown |
| AssignmentGroupScoring.BestCase | src/main/java/edu/asu/dlsandy/canvas_ore/AssignmentGroup.java:84-96 | one entry per assignment: its grade, or its points possible when the grade is unknown |
| AssignmentGroupScoring.Maxima | src/main/java/edu/asu/dlsandy/canvas_ore/AssignmentGroup.java:141-144 | one entry per assignment: its points possible |
| AssignmentGroupScoring.Bracket | src/main/java/edu/asu/dlsandy/canvas_ore/AssignmentGroup.java:87-96 | an unknown grade puts 0 in the worst case and the points possible in the best case; a known grade puts itself in both |
| AssignmentGroupScoring.Decide | src/main/java/edu/asu/dlsandy/canvas_ore/AssignmentGroup.java:114-120 | a known result is the worst-case points, and the result is known exactly when the worst case reaches 70% of the maximum or the best case stays below it |
| AssignmentGroupScoring.ZeroMaximumZeroPointsUnknown | src/main/java/edu/asu/dlsandy/canvas_ore/AssignmentGroup.java:114-120 | with zero points out of a zero maximum both quotients are NaN, so the result is unknown |
| AssignmentGroupScoring.WindowedSum | src/main/java/edu/asu/dlsandy/canvas_ore/AssignmentGroup.java:99-105 | the loop sums exactly the sorted entries whose index is at least drop_lowest and below the size minus drop_highest |
| AssignmentGroupScoring.CaseLists | src/main/java/edu/asu/dlsandy/canvas_ore/AssignmentGroup.java:84-96 | the loop builds exactly the worst-case and best-case lists |
| AssignmentGroupScoring.SortedWindows | src/main/java/edu/asu/dlsandy/canvas_ore/AssignmentGroup.java:97-112 | both lists are sorted ascending and summed over the same window |
| AssignmentGroupScoring.CaseBounds | src/main/java/edu/asu/dlsandy/canvas_ore/AssignmentGroup.java:84-112 | the worst and best case sums are the windowed sums of the sorted lists |
| AssignmentGroupScoring.AssignmentGroup.constructor | src/main/java/edu/asu/dlsandy/canvas_ore/AssignmentGroup.java:26-35 | a group keeps its name, id, drop rules and assignments |
| AssignmentGroupScoring.AssignmentGroup.MaxPossible | src/main/java/edu/asu/dlsandy/canvas_ore/AssignmentGroup.java:131-152 | the named assignment's maximum, or the windowed sum of the sorted points possible |
| AssignmentGroupScoring.AssignmentGroup.Points | src/main/java/edu/asu/dlsandy/canvas_ore/AssignmentGroup.java:65-121 | the named assignment's points, or the decision between the worst and best case sums against the maximum |
| AssignmentGroupScoring.AssignmentGroup.MaximumOutcomePoints | src/main/java/edu/asu/dlsandy/canvas_ore/AssignmentGroup.java:131-152 | the method computes the group maximum |
| AssignmentGroupScoring.AssignmentGroup.StudentOutcomePoints | src/main/java/edu/asu/dlsandy/canvas_ore/AssignmentGroup.java:65-121 | the method computes the group points |
| AssignmentGroupScoring.AssignmentGroup.LoadGrades | src/main/java/edu/asu/dlsandy/canvas_ore/AssignmentGroup.java:51-53 | every assignment of the group holds the grades loaded from its submissions |
| AssignmentGroupScoring.AssignmentGroup.Contains | src/main/java/edu/asu/dlsandy/canvas_ore/AssignmentGroup.java:158-168 | the loop returns the answer of the first assignment with the name |
| AssignmentGroupScoring.ContainsIff | src/main/java/edu/asu/dlsandy/canvas_ore/AssignmentGroup.java:158-168 | true exactly when the first assignment with the name exists and either no criterion is given or its rubric has the criterion |
| AssignmentGroupScoring.KnownResultIsWorstCase | src/main/java/edu/asu/dlsandy/canvas_ore/AssignmentGroup.java:114-120 | a known group result is the worst-case sum; the result is NaN exactly when neither the 70% test on the worst case nor the below-70% test on the best case decides |
| AssignmentGroupScoring.BracketOrdered | src/main/java/edu/asu/dlsandy/canvas_ore/AssignmentGroup.java:87-96 | with non-negative points possible each worst-case entry is at most the best-case entry |
| AssignmentGroupScoring.MinAtMostMax | src/main/java/edu/asu/dlsandy/canvas_ore/AssignmentGroup.java:97-112 | the worst-case sum is at most the best-case sum |
| AssignmentGroupScoring.NoUnknownListsAgree | src/main/java/edu/asu/dlsandy/canvas_ore/AssignmentGroup.java:87-96 | with every grade known the two lists coincide |
| AssignmentGroupScoring.NoUnknownExactResult | src/main/java/edu/asu/dlsandy/canvas_ore/AssignmentGroup.java:84-120 | with every grade known and a positive maximum the result is the windowed sum of the grades |
| AssignmentGroupScoring.EverythingDroppedIsUnknown | src/main/java/edu/asu/dlsandy/canvas_ore/AssignmentGroup.java:99-120 | when the drop rules cover every assignment both sums and the maximum are 0 and the result is NaN |
| AssignmentGroupList.StudentOutcomePoints | src/main/java/edu/asu/dlsandy/canvas_ore/AssignmentGroups.java:61-72 | the nested loop adds up the group points of every pair of a group and an association naming it |
| AssignmentGroupList.AddGroupMax | src/main/java/edu/asu/dlsandy/canvas_ore/AssignmentGroups.java:200-205 | the inner loop adds the group maximum of every association naming the group |
| AssignmentGroupList.MaximumOutcomePoints | src/main/java/edu/asu/dlsandy/canvas_ore/AssignmentGroups.java:197-208 | the nested loop adds up the group maxima of every matching pair |
| AssignmentGroupList.FirstGroupNamed | src/main/java/edu/asu/dlsandy/canvas_ore/AssignmentGroups.java:213-218 | the index of the first group with the name, or None when no group has it |
| AssignmentGroupList.FromName | src/main/java/edu/asu/dlsandy/canvas_ore/AssignmentGroups.java:213-218 | a found group is the first in the list with the name; None exactly when no group has it |
| AssignmentGroupList.GetFromName | src/main/java/edu/asu/dlsandy/canvas_ore/AssignmentGroups.java:213-218 | the loop returns the first group with the name, or null |
| AssignmentGroupList.PercentFromPoints | src/main/java/edu/asu/dlsandy/canvas_ore/AssignmentGroups.java:82-108 | without the group both points and percent are NaN; otherwise the percent is 0 for a zero maximum and the points over the maximum else |
| AssignmentGroupList.StudentAssignmentPoints | src/main/java/edu/asu/dlsandy/canvas_ore/AssignmentGroups.java:82-86 | the method computes the association's points, NaN without the group |
| AssignmentGroupList.StudentAssignmentPercent | src/main/java/edu/asu/dlsandy/canvas_ore/AssignmentGroups.java:96-108 | the method computes the association's percent |
| AssignmentGroupList.GroupPercents | src/main/java/edu/asu/dlsandy/canvas_ore/AssignmentGroups.java:175-185 | the inner loop adds the percent and counts each matching association with a nonzero maximum |
| AssignmentGroupList.AddPercent | src/main/java/edu/asu/dlsandy/canvas_ore/AssignmentGroups.java:176-184 | one step of the inner loop adds one percent when the maximum is nonzero |
| AssignmentGroupList.AddGroupPercents | src/main/java/edu/asu/dlsandy/canvas_ore/AssignmentGroups.java:174-186 | one step of the outer loop adds one group's sum and count |
| AssignmentGroupList.PercentTotals | src/main/java/edu/asu/dlsandy/canvas_ore/AssignmentGroups.java:171-186 | the nested loop computes the percent sum and the count over all matching pairs |
| AssignmentGroupList.AverageOutcomePercent | src/main/java/edu/asu/dlsandy/canvas_ore/AssignmentGroups.java:171-189 | the percent sum over the count, or 0 when nothing counted |
| AssignmentGroupList.GroupPercentList | src/main/java/edu/asu/dlsandy/canvas_ore/AssignmentGroups.java:120-132 | one entry per association naming the group |
| AssignmentGroupList.PercentList | src/main/java/edu/asu/dlsandy/canvas_ore/AssignmentGroups.java:117-136 | one entry per matching pair of group and association |
| AssignmentGroupList.GroupPercentages | src/main/java/edu/asu/dlsandy/canvas_ore/AssignmentGroups.java:120-132 | the inner loop appends NaN for unknown points and points over maximum otherwise |
| AssignmentGroupList.AddGroupPercentages | src/main/java/edu/asu/dlsandy/canvas_ore/AssignmentGroups.java:119-134 | one step of the outer loop appends one group's entries |
| AssignmentGroupList.StudentAssignmentPercentages | src/main/java/edu/asu/dlsandy/canvas_ore/AssignmentGroups.java:117-136 | the loop builds exactly the list of percents of every matching pair |
| AssignmentGroupList.GroupPercentListFinite | src/main/java/edu/asu/dlsandy/canvas_ore/AssignmentGroups.java:127-131 | when every matching association has known points and a nonzero maximum, every entry is a finite number |
| AssignmentGroupList.PercentListFinite | src/main/java/edu/asu/dlsandy/canvas_ore/AssignmentGroups.java:117-136 | the same across all groups |
| AssignmentGroupList.Contains | src/main/java/edu/asu/dlsandy/canvas_ore/AssignmentGroups.java:224-234 | the loop returns the answer of the first group with the name |
| AssignmentGroupList.GroupsContainIff | src/main/java/edu/asu/dlsandy/canvas_ore/AssignmentGroups.java:224-234 | true exactly when the first group with the name exists and either no assignment is given or that group contains it |
| AssignmentGroupList.LoadGrades | src/main/java/edu/asu/dlsandy/canvas_ore/AssignmentGroups.java:48-52 | every assignment of every group holds the grades loaded from its submissions |
| AssignmentGroupList.GroupPointsKnown | src/main/java/edu/asu/dlsandy/canvas_ore/AssignmentGroups.java:63-69 | a group's points sum is known exactly when every association naming it has known points |
| AssignmentGroupList.OutcomePointsKnown | src/main/java/edu/asu/dlsandy/canvas_ore/AssignmentGroups.java:61-72 | the outcome's points are known exactly when every matching pair has known points |
| AssignmentGroupList.GroupPointsAppend | src/main/java/edu/asu/dlsandy/canvas_ore/AssignmentGroups.java:64-68 | an association appended after the first m leaves the sums over the first m unchanged |
| AssignmentGroupList.UnmatchedAssociationAddsNothing | src/main/java/edu/asu/dlsandy/canvas_ore/AssignmentGroups.java:65 | an association naming no group changes neither the points nor the maximum |
| AssignmentGroupList.PercentSumKnownStep | src/main/java/edu/asu/dlsandy/canvas_ore/AssignmentGroups.java:180-183 | one more association keeps the percent sum known exactly when its term is not NaN |
| AssignmentGroupList.GroupPercentSumKnown | src/main/java/edu/asu/dlsandy/canvas_ore/AssignmentGroups.java:175-185 | a group's percent sum is known exactly when none of its terms is NaN |
| AssignmentGroupList.GroupNonzeroPositive | src/main/java/edu/asu/dlsandy/canvas_ore/AssignmentGroups.java:180-183 | a group counts something exactly when some association naming it has a nonzero maximum |
| AssignmentGroupList.UnknownTermsStep | src/main/java/edu/asu/dlsandy/canvas_ore/AssignmentGroups.java:174-186 | a NaN term among the first n groups is one among the first n-1 or one in group n |
| AssignmentGroupList.PercentSumUnknownIff | src/main/java/edu/asu/dlsandy/canvas_ore/AssignmentGroups.java:171-186 | the percent sum is NaN exactly when some counted term is NaN |
| AssignmentGroupList.NonzeroCountPositive | src/main/java/edu/asu/dlsandy/canvas_ore/AssignmentGroups.java:180-183 | a matching pair with a nonzero maximum makes the count positive |
| AssignmentGroupList.AverageUnknownIff | src/main/java/edu/asu/dlsandy/canvas_ore/AssignmentGroups.java:171-189 | the average is NaN exactly when some counted term is NaN |
| AssignmentGroupList.NothingCountedAverageZero | src/main/java/edu/asu/dlsandy/canvas_ore/AssignmentGroups.java:187-188 | when every matching pair has a zero maximum the average is 0 |
| AssignmentGroupList.NonzeroCountZero | src/main/java/edu/asu/dlsandy/canvas_ore/AssignmentGroups.java:180-183 | when every matching pair has a zero maximum the count is 0 |
| OutcomeReport.Tier | src/main/java/edu/asu/dlsandy/canvas_ore/OutcomeReport.java:114-138 | "X" exactly when the points or the percent are NaN; otherwise "E" at or above the exceeds threshold, "A" at or above the demonstrates threshold, "I" below both |
| OutcomeReport.TierMonotone | src/main/java/edu/asu/dlsandy/canvas_ore/OutcomeReport.java:130-138 | with the thresholds fixed a higher percent never gives a lower tier |
| OutcomeReport.MissingGroupNoScore | src/main/java/edu/asu/dlsandy/canvas_ore/OutcomeReport.java:114-118 | an association whose group does not exist gives "X" |
| OutcomeReport.StudentKpi | src/main/java/edu/asu/dlsandy/canvas_ore/OutcomeReport.java:114-138 | "X" exactly when the group points or percent are NaN; otherwise "E" at or above the association's exceeds threshold, "A" from its demonstrates threshold up to exceeds, "I" below both |
| OutcomeReport.KpiOf | src/main/java/edu/asu/dlsandy/canvas_ore/OutcomeReport.java:114-138 | the method computes the student's tier from the group scores |
| OutcomeReport.AssociationKpis | src/main/java/edu/asu/dlsandy/canvas_ore/OutcomeReport.java:111-140 | one tier per student, in student order |
| OutcomeReport.OutcomeKpis | src/main/java/edu/asu/dlsandy/canvas_ore/OutcomeReport.java:75-141 | one row of tiers per association, one tier per student |
| OutcomeReport.Count | src/main/java/edu/asu/dlsandy/canvas_ore/OutcomeReport.java:174-191 | the count of a tier is at most the number of tiers |
| OutcomeReport.CountPartition | src/main/java/edu/asu/dlsandy/canvas_ore/OutcomeReport.java:176-189 | the four tier counts add up to the number of tiers |
| OutcomeReport.CountUniform | src/main/java/edu/asu/dlsandy/canvas_ore/OutcomeReport.java:176-189 | when every tier is the same, that tier counts all of them and another counts none |
| OutcomeReport.VerdictSpec | src/main/java/edu/asu/dlsandy/canvas_ore/OutcomeReport.java:192-194 | Attained exactly when demonstrated over total reaches 70%, Not Attained exactly when demonstrated plus unknown over total stays below 70%, and "-" with no tiers |
| OutcomeReport.StudentVerdictCounts | src/main/java/edu/asu/dlsandy/canvas_ore/OutcomeReport.java:170-191 | the demonstrated and unknown counts never exceed the total |
| OutcomeReport.AllExceedsAttained | src/main/java/edu/asu/dlsandy/canvas_ore/OutcomeReport.java:192-194 | a student exceeding on every association attains the outcome |
| OutcomeReport.AllInsufficientNotAttained | src/main/java/edu/asu/dlsandy/canvas_ore/OutcomeReport.java:192-194 | a student insufficient on every association does not attain it |
| OutcomeReport.NoAssociationsUndecided | src/main/java/edu/asu/dlsandy/canvas_ore/OutcomeReport.java:192-194 | with no associations the verdict stays "-" |
| OutcomeReport.VerdictOf | src/main/java/edu/asu/dlsandy/canvas_ore/OutcomeReport.java:192-194 | with no associations the quotients are infinite or NaN: Attained exactly when something was demonstrated, never Not Attained; otherwise Not Attained exactly when demonstrated plus unknown falls below 70%, and Attained only when demonstrated reaches 70% |
| OutcomeReport.Thousandths | src/main/java/edu/asu/dlsandy/canvas_ore/OutcomeReport.java:205 | Math.round(x * 1000) / 1000 is a whole number of thousandths within half a thousandth of x |
| OutcomeReport.ThousandthsBoundsMonotone | src/main/java/edu/asu/dlsandy/canvas_ore/OutcomeReport.java:162-205 | the rounding keeps [0, 1] within [0, 1] and preserves order |
| OutcomeReport.OutcomePercentBounds | src/main/java/edu/asu/dlsandy/canvas_ore/OutcomeReport.java:200-208 | points within the maximum give a percent in [0, 1], and a zero maximum gives 1 |
| OutcomeReport.OutcomePercent | src/main/java/edu/asu/dlsandy/canvas_ore/OutcomeReport.java:200-208 | 1 for a zero maximum, 0 for NaN points, otherwise within half a thousandth of points over maximum |
| OutcomeReport.AveragePercentShown | src/main/java/edu/asu/dlsandy/canvas_ore/OutcomeReport.java:162 | 0 for a NaN average, otherwise within half a thousandth of the average |
| OutcomeReport.StudentPercents | src/main/java/edu/asu/dlsandy/canvas_ore/OutcomeReport.java:162-208 | the student's outcome percent (points over maximum to three decimals, 0 for NaN points, 1 for a zero maximum) and the average percent to three decimals (0 for NaN) |
| OutcomeReport.StudentLines | src/main/java/edu/asu/dlsandy/canvas_ore/OutcomeReport.java:157-208 | the two percents of every student, in order |
| OutcomeReport.BandOf | src/main/java/edu/asu/dlsandy/canvas_ore/OutcomeReport.java:228-243 | the band of a percent: at least 90%, 80%, 70%, or below 70%, each exactly on its interval |
| OutcomeReport.Bump | src/main/java/edu/asu/dlsandy/canvas_ore/OutcomeReport.java:228-243 | counting one more student in a band raises the band total by one |
| OutcomeReport.Tally | src/main/java/edu/asu/dlsandy/canvas_ore/OutcomeReport.java:221-243 | counting one student keeps one counter per band |
| OutcomeReport.TotalsOf | src/main/java/edu/asu/dlsandy/canvas_ore/OutcomeReport.java:143-244 | the totals over the students keep one counter per band |
| OutcomeReport.TotalsPartition | src/main/java/edu/asu/dlsandy/canvas_ore/OutcomeReport.java:221-243 | every student is counted in exactly one points band, one percent band and one verdict |
| OutcomeReport.CountStudent | src/main/java/edu/asu/dlsandy/canvas_ore/OutcomeReport.java:221-243 | one step of the loop counts one student |
| OutcomeReport.OutcomeTotals | src/main/java/edu/asu/dlsandy/canvas_ore/OutcomeReport.java:157-244 | the loop computes the totals of all students |
| OutcomeReport.AttainedShareBounds | src/main/java/edu/asu/dlsandy/canvas_ore/OutcomeReport.java:304-315 | "UNKNOWN" exactly when no student was decided, otherwise a percent in [0, 100] |
| OutcomeReport.AttainedShare | src/main/java/edu/asu/dlsandy/canvas_ore/OutcomeReport.java:304-315 | "UNKNOWN" exactly when no student was decided, otherwise the percent that times the decided count gives 100 times the attained count |
| OutcomeReport.TallyOf | src/main/java/edu/asu/dlsandy/canvas_ore/OutcomeReport.java:249-275 | the tally holds the count of each tier, "X" counted as unknown; "E", "A" and "I" add up to the total, and the total plus the unknown count is the number of students |
| OutcomeReport.SharesAdd | src/main/java/edu/asu/dlsandy/canvas_ore/OutcomeReport.java:283-285 | three unrounded shares of a total in percent add up to 100 |
| OutcomeReport.RoundedShare | src/main/java/edu/asu/dlsandy/canvas_ore/OutcomeReport.java:283-285 | Math.round(count * 1000 / total) / 10 is a whole number of tenths within 0.05 of the percent count / total |
| OutcomeReport.RoundedShareBounds | src/main/java/edu/asu/dlsandy/canvas_ore/OutcomeReport.java:283-285 | a share lies in [0, 100], is 0 for no student and exactly 100 for every student |
| OutcomeReport.Shares | src/main/java/edu/asu/dlsandy/canvas_ore/OutcomeReport.java:277-293 | "-" exactly when no student has a known tier, otherwise each of the three shares within 0.05 of its exact percent |
| OutcomeReport.SharesOfThirds | src/main/java/edu/asu/dlsandy/canvas_ore/OutcomeReport.java:283-285 | one student in each tier shows 33.3 three times, so the shares need not add up to 100 |
| OutcomeReport.SharesSum | src/main/java/edu/asu/dlsandy/canvas_ore/OutcomeReport.java:277-293 | "-" exactly when no student has a known tier; otherwise each share lies in [0, 100] and the three rounded shares add up to within 0.15 of 100 |
| OutcomeReport.KpiRow | src/main/java/edu/asu/dlsandy/canvas_ore/OutcomeReport.java:174-191 | the run of a student's "_KPI" entries read from the symbol table, of the length counted |
| OutcomeReport.KpiColumn | src/main/java/edu/asu/dlsandy/canvas_ore/OutcomeReport.java:255-257 | the column of one association's "_KPI" entries over the students |
| OutcomeReport.SymbolTable.constructor | src/main/java/edu/asu/dlsandy/canvas_ore/OutcomeReport.java:50-51 | the symbol table starts empty |
| OutcomeReport.SymbolTable.PutColumn | src/main/java/edu/asu/dlsandy/canvas_ore/OutcomeReport.java:111-140 | every student's tier for the association is stored under its key, and every other key keeps its value |
| OutcomeReport.SymbolTable.PutKpis | src/main/java/edu/asu/dlsandy/canvas_ore/OutcomeReport.java:75-141 | every association's tiers are stored under their keys, and every other key keeps its value |
| OutcomeReport.SymbolTable.CountKpis | src/main/java/edu/asu/dlsandy/canvas_ore/OutcomeReport.java:169-191 | the while loop stops at the first missing key and counts demonstrated, not demonstrated and unknown tiers of the run before it |
| OutcomeReport.SymbolTable.VerdictFor | src/main/java/edu/asu/dlsandy/canvas_ore/OutcomeReport.java:169-194 | the verdict of the student's run of tiers |
| OutcomeReport.SymbolTable.StudentResults | src/main/java/edu/asu/dlsandy/canvas_ore/OutcomeReport.java:157-219 | each student's percents and the verdict read back from the table |
| OutcomeReport.SymbolTable.Tallies | src/main/java/edu/asu/dlsandy/canvas_ore/OutcomeReport.java:247-275 | one tally per association, read from its column of the table |
| OutcomeReport.SymbolTable.AssociationTally | src/main/java/edu/asu/dlsandy/canvas_ore/OutcomeReport.java:249-275 | the loop counts one association's column |
| OutcomeReport.SymbolTable.ReportOutcome | src/main/java/edu/asu/dlsandy/canvas_ore/OutcomeReport.java:65-317 | one outcome's pass: the tier table, each student's verdict from that student's tiers across the associations, the totals of the students and the tallies of each association's tiers |
| OutcomeReport.SymbolTable.Summarize | src/main/java/edu/asu/dlsandy/canvas_ore/OutcomeReport.java:143-294 | after the tiers are written, verdicts, totals and tallies come from the written rows |
| OutcomeReport.SymbolTable.ReadVerdicts | src/main/java/edu/asu/dlsandy/canvas_ore/OutcomeReport.java:157-219 | each student's verdict is the one of that student's tiers across the associations |
| OutcomeReport.SymbolTable.ReadTallies | src/main/java/edu/asu/dlsandy/canvas_ore/OutcomeReport.java:247-275 | each association's tally is the one of its row of tiers |
| OutcomeReport.Across | src/main/java/edu/asu/dlsandy/canvas_ore/OutcomeReport.java:174-175 | a student's tiers across the associations, one per association |
| OutcomeReport.ReadBackRows | src/main/java/edu/asu/dlsandy/canvas_ore/OutcomeReport.java:174 | after writing, each student's run of keys ends just after the last association |
| OutcomeReport.ReadBackColumns | src/main/java/edu/asu/dlsandy/canvas_ore/OutcomeReport.java:257 | after writing, each association's column is present for every student |
| OutcomeReport.RowsAcross | src/main/java/edu/asu/dlsandy/canvas_ore/OutcomeReport.java:169-191 | the run read back for a student is that student's tiers across the associations |
| OutcomeReport.ColumnsAre | src/main/java/edu/asu/dlsandy/canvas_ore/OutcomeReport.java:255-257 | the column read back for an association is its row of tiers |
| OutcomeReport.FilledRow | src/main/java/edu/asu/dlsandy/canvas_ore/OutcomeReport.java:174-175 | a run of written keys reads back as the tiers across |
| OutcomeReport.FilledColumn | src/main/java/edu/asu/dlsandy/canvas_ore/OutcomeReport.java:255-257 | a written column reads back as the row |
| OutcomeReport.RunEnd | src/main/java/edu/asu/dlsandy/canvas_ore/OutcomeReport.java:174 | the length at which a run stops is unique |
| ReportTemplate.MarkedFrom | src/main/java/edu/asu/dlsandy/canvas_ore/OutcomeReport.java:351-372 | the outcome number 1 to 20 whose marker the trimmed line is, or None exactly when it is none of them |
| ReportTemplate.AssocCount | src/main/java/edu/asu/dlsandy/canvas_ore/OutcomeReport.java:416 | the association count of an outcome exists exactly when the outcome number is within the list |
| ReportTemplate.Classify | src/main/java/edu/asu/dlsandy/canvas_ore/OutcomeReport.java:351 | a classified line keeps its text |
| ReportTemplate.NextValid | src/main/java/edu/asu/dlsandy/canvas_ore/OutcomeReport.java:373-503 | one line keeps the pass's counters in their ranges |
| ReportTemplate.NextOnValid | src/main/java/edu/asu/dlsandy/canvas_ore/OutcomeReport.java:373-503 | the same for the state's own case |
| ReportTemplate.DropIff | src/main/java/edu/asu/dlsandy/canvas_ore/OutcomeReport.java:436-498 | a line is dropped exactly in the flush states, except the table end in the unused-rows flush and the end marker in the unused-outcomes flush |
| ReportTemplate.NextOnDropIff | src/main/java/edu/asu/dlsandy/canvas_ore/OutcomeReport.java:436-498 | the same for the state's own case |
| ReportTemplate.FailIff | src/main/java/edu/asu/dlsandy/canvas_ore/OutcomeReport.java:416-469 | the pass stops exactly when it looks up the associations of an outcome number outside the list: a paragraph end in the assessment list below the sixth, a row end in a summary table, or a cell end in the score table below the sixth column |
| ReportTemplate.NextOnFailIff | src/main/java/edu/asu/dlsandy/canvas_ore/OutcomeReport.java:416-469 | the same for the state's own case |
| ReportTemplate.OverflowFlushes | src/main/java/edu/asu/dlsandy/canvas_ore/OutcomeReport.java:375-378 | an outcome number past the last outcome closes the paragraph and starts flushing the unused outcomes |
| ReportTemplate.ReplaceFromAbsent | src/main/java/edu/asu/dlsandy/canvas_ore/OutcomeReport.java:505-511 | a line holding none of the keys comes out of the replacement loop unchanged |
| ReportTemplate.SubstituteAbsent | src/main/java/edu/asu/dlsandy/canvas_ore/OutcomeReport.java:505-512 | a line mentioning no key of the table is written unchanged |
| ReportTemplate.ReplaceSymbols | src/main/java/edu/asu/dlsandy/canvas_ore/OutcomeReport.java:505-512 | the loop replaces the keys in ascending order and stops once no "$+" is left |
| ReportTemplate.Actions | src/main/java/edu/asu/dlsandy/canvas_ore/OutcomeReport.java:350-514 | at most one action per line |
| ReportTemplate.Output | src/main/java/edu/asu/dlsandy/canvas_ore/OutcomeReport.java:513 | at most one written line per action |
| ReportTemplate.FailOnlyLast | src/main/java/edu/asu/dlsandy/canvas_ore/OutcomeReport.java:350-517 | a failure ends the pass: only the last action can be a failure |
| ReportTemplate.NextOnFlushing | src/main/java/edu/asu/dlsandy/canvas_ore/OutcomeReport.java:496-498 | while flushing unused outcomes every line but the end marker is dropped and nothing changes |
| ReportTemplate.FlushedToEnd | src/main/java/edu/asu/dlsandy/canvas_ore/OutcomeReport.java:496-498 | with no end marker left, everything after an unused outcome is dropped |
| ReportTemplate.DroppedWriteNothing | src/main/java/edu/asu/dlsandy/canvas_ore/OutcomeReport.java:513 | dropped lines write nothing |
| ReportTemplate.ClassifyLine | src/main/java/edu/asu/dlsandy/canvas_ore/OutcomeReport.java:351 | the method classifies the trimmed line |
| ReportTemplate.Step | src/main/java/edu/asu/dlsandy/canvas_ore/OutcomeReport.java:351-503 | the method performs one line of the pass |
| ReportTemplate.StepOn | src/main/java/edu/asu/dlsandy/canvas_ore/OutcomeReport.java:373-503 | the switch on the state performs the state's own case |
| ReportTemplate.FilterTemplate | src/main/java/edu/asu/dlsandy/canvas_ore/OutcomeReport.java:326-514 | the output is the replaced written lines of the pass over the template's lines, and it fails exactly when the pass fails |
| ReportTemplate.FilterFrom | src/main/java/edu/asu/dlsandy/canvas_ore/OutcomeReport.java:350-514 | the same from any variables on any lines |
| ReportTemplate.ClassifyAll | src/main/java/edu/asu/dlsandy/canvas_ore/OutcomeReport.java:351 | one classified line per template line |
| ReportTemplate.ReadLine | src/main/java/edu/asu/dlsandy/canvas_ore/OutcomeReport.java:350-513 | one line of the loop keeps the loop's progress, or ends it with the pass's failed output |
| ReportTemplate.FeedLine | src/main/java/edu/asu/dlsandy/canvas_ore/OutcomeReport.java:351-513 | one line's action continues the pass's actions, and the output grows by its replaced line |
| ReportTemplate.OutputAppend | src/main/java/edu/asu/dlsandy/canvas_ore/OutcomeReport.java:513 | a written action adds its replaced line to the output, others add nothing |
| XmlTemplate.Scan | src/main/java/edu/asu/dlsandy/canvas_ore/XmlTemplateReader.java:39-59 | a found end is just past a '>' |
| XmlTemplate.LineEnd | src/main/java/edu/asu/dlsandy/canvas_ore/XmlTemplateReader.java:39-59 | a found end is just past a '>' after the start |
| XmlTemplate.ScanFirstClose | src/main/java/edu/asu/dlsandy/canvas_ore/XmlTemplateReader.java:44-56 | the scan stops just past the first '>' outside quotes, and finds nothing exactly when there is none |
| XmlTemplate.LineEndFirstClose | src/main/java/edu/asu/dlsandy/canvas_ore/XmlTemplateReader.java:39-59 | a line ends just past the first '>' read outside quotes; null exactly when none is left |
| XmlTemplate.QuotedCloseToggles | src/main/java/edu/asu/dlsandy/canvas_ore/XmlTemplateReader.java:48-54 | a '>' inside quotes flips the quote flag like a quote does |
| XmlTemplate.LinesClosed | src/main/java/edu/asu/dlsandy/canvas_ore/XmlTemplateReader.java:39-59 | every line read is non-empty and ends with '>' |
| XmlTemplate.LinesPrefix | src/main/java/edu/asu/dlsandy/canvas_ore/XmlTemplateReader.java:39-59 | the lines read concatenate to a prefix of the input, and the rest holds no '>' outside quotes |
| XmlTemplate.TemplateReader.constructor | src/main/java/edu/asu/dlsandy/canvas_ore/XmlTemplateReader.java:22-31 | the reader starts at the beginning of the template |
| XmlTemplate.TemplateReader.ReadLine | src/main/java/edu/asu/dlsandy/canvas_ore/XmlTemplateReader.java:39-59 | the line up to the first '>' outside quotes, or null at end of input with the characters read gone |
| XmlTemplate.TemplateReader.ReadLines | src/main/java/edu/asu/dlsandy/canvas_ore/OutcomeReport.java:350 | reading until null yields exactly the lines of the template |
| XmlTemplate.IntendedScan | src/main/java/edu/asu/dlsandy/canvas_ore/XmlTemplateReader.java:33-38 | the scan as the reader's comment describes it: a found end is just past a '>' |
| XmlTemplate.IntendedFirstClose | src/main/java/edu/asu/dlsandy/canvas_ore/XmlTemplateReader.java:33-38 | the corrected scan ends a line just past the first '>' that follows an even number of double quotes, and finds nothing exactly when there is none |
| XmlTemplate.IntendedQuotedClose | src/main/java/edu/asu/dlsandy/canvas_ore/XmlTemplateReader.java:48-54 | on the input that breaks the as-written reader, the corrected scan ends the line at the last '>' |
| LegacyGroups.FirstNamed | canvas_ore_gr/src/main/java/edu/asu/dlsandy/AssignmentGroup.java:67-68 | the index of the first assignment with the name, or None when none has it |
| LegacyGroups.NamedAssignment | canvas_ore_gr/src/main/java/edu/asu/dlsandy/AssignmentGroup.java:67-68 | the assignment a named association is delegated to is in the group and has the name |
| LegacyGroups.WholePoints | canvas_ore_gr/src/main/java/edu/asu/dlsandy/AssignmentGroup.java:73-76 | one entry per assignment of the group |
| LegacyGroups.WholeMaxima | canvas_ore_gr/src/main/java/edu/asu/dlsandy/AssignmentGroup.java:104-107 | one entry per assignment of the group |
| LegacyGroups.GroupContains | canvas_ore_gr/src/main/java/edu/asu/dlsandy/AssignmentGroup.java:121-131 | true exactly when the first assignment with the name exists and either no criterion is given or it has the criterion |
| LegacyGroups.IndexNamed | canvas_ore_gr/src/main/java/edu/asu/dlsandy/AssignmentGroup.java:67-68 | the loop finds the first assignment with the name |
| LegacyGroups.ListPoints | canvas_ore_gr/src/main/java/edu/asu/dlsandy/AssignmentGroup.java:73-76 | the loop collects every assignment's points |
| LegacyGroups.ListMaxima | canvas_ore_gr/src/main/java/edu/asu/dlsandy/AssignmentGroup.java:104-107 | the loop collects every assignment's maximum |
| LegacyGroups.StudentOutcomePoints | canvas_ore_gr/src/main/java/edu/asu/dlsandy/AssignmentGroup.java:63-84 | the named assignment's points, or the sum of the sorted points inside the drop window |
| LegacyGroups.MaximumOutcomePoints | canvas_ore_gr/src/main/java/edu/asu/dlsandy/AssignmentGroup.java:94-115 | the named assignment's maximum, or the sum of the sorted maxima inside the drop window |
| LegacyGroups.Contains | canvas_ore_gr/src/main/java/edu/asu/dlsandy/AssignmentGroup.java:121-131 | the loop computes the group's contains answer |
| LegacyGroups.NoDropsPlainSum | canvas_ore_gr/src/main/java/edu/asu/dlsandy/AssignmentGroup.java:77-83 | with no drops the group points are the plain sum of the assignments' points |
| LegacyGroups.AllDroppedZero | canvas_ore_gr/src/main/java/edu/asu/dlsandy/AssignmentGroup.java:77-83 | when the drops cover every assignment both points and maximum are 0 |
| LegacyGroups.WholeAtMostMaxima | canvas_ore_gr/src/main/java/edu/asu/dlsandy/AssignmentGroup.java:73-76 | with every assignment's points within its maximum the lists compare entry by entry |
| LegacyGroups.PointsWithinMaximum | canvas_ore_gr/src/main/java/edu/asu/dlsandy/AssignmentGroup.java:63-115 | then the group's points are at most its maximum, whatever the drop rules |
| LegacyGroups.FromName | canvas_ore_gr/src/main/java/edu/asu/dlsandy/AssignmentGroups.java:155-160 | the index of the first group with the name, or None when no group has it |
| LegacyGroups.GetFromName | canvas_ore_gr/src/main/java/edu/asu/dlsandy/AssignmentGroups.java:155-160 | the loop returns the first group with the name, or null exactly when none has it |
| LegacyGroups.StudentAssignmentPoints | canvas_ore_gr/src/main/java/edu/asu/dlsandy/AssignmentGroups.java:82-86 | the method computes the association's points |
| LegacyGroups.StudentAssignmentPercent | canvas_ore_gr/src/main/java/edu/asu/dlsandy/AssignmentGroups.java:96-104 | the method computes the association's percent |
| LegacyGroups.MissingGroupSentinel | canvas_ore_gr/src/main/java/edu/asu/dlsandy/AssignmentGroups.java:82-104 | without the group, points and percent are both -1 |
| LegacyGroups.PercentFromPoints | canvas_ore_gr/src/main/java/edu/asu/dlsandy/AssignmentGroups.java:96-104 | with the group the percent is 0 for a zero maximum and the points over the maximum otherwise |
| LegacyGroups.StudentOutcomeTotal | canvas_ore_gr/src/main/java/edu/asu/dlsandy/AssignmentGroups.java:61-72 | the nested loop adds up the group points of every matching pair |
| LegacyGroups.GroupOutcomePoints | canvas_ore_gr/src/main/java/edu/asu/dlsandy/AssignmentGroups.java:64-69 | the inner loop adds the points of every association naming the group |
| LegacyGroups.MaximumOutcomeTotal | canvas_ore_gr/src/main/java/edu/asu/dlsandy/AssignmentGroups.java:139-150 | the nested loop adds up the group maxima of every matching pair |
| LegacyGroups.GroupOutcomeMaximum | canvas_ore_gr/src/main/java/edu/asu/dlsandy/AssignmentGroups.java:142-147 | the inner loop adds the maximum of every association naming the group |
| LegacyGroups.NoPairsZero | canvas_ore_gr/src/main/java/edu/asu/dlsandy/AssignmentGroups.java:61-150 | when no association names a group both totals are 0 |
| LegacyGroups.NoMatchTermZero | canvas_ore_gr/src/main/java/edu/asu/dlsandy/AssignmentGroups.java:64-69 | a group no association names adds nothing |
| LegacyGroups.StudentAverageOutcomePercent | canvas_ore_gr/src/main/java/edu/asu/dlsandy/AssignmentGroups.java:113-131 | the percent sum over the count of pairs with a nonzero maximum, or 0 when none |
| LegacyGroups.GroupAveragePercents | canvas_ore_gr/src/main/java/edu/asu/dlsandy/AssignmentGroups.java:117-127 | the inner loop's sum and count for one group |
| LegacyGroups.GroupPercentsBounded | canvas_ore_gr/src/main/java/edu/asu/dlsandy/AssignmentGroups.java:117-127 | with points within maxima a group's percent sum is between 0 and its count |
| LegacyGroups.DivideAtMostOne | canvas_ore_gr/src/main/java/edu/asu/dlsandy/AssignmentGroups.java:123 | points within a nonzero maximum give a quotient in [0, 1] |
| LegacyGroups.PercentsBounded | canvas_ore_gr/src/main/java/edu/asu/dlsandy/AssignmentGroups.java:113-128 | the same over all groups |
| LegacyGroups.AveragePercentBounds | canvas_ore_gr/src/main/java/edu/asu/dlsandy/AssignmentGroups.java:113-131 | with points within maxima the average percent is in [0, 1] |
| LegacyGroups.LoadedOrAlwaysTrue | canvas_ore_gr/src/main/java/edu/asu/dlsandy/AssignmentGroups.java:46-52 | "result \|= ..." starting from true is true whatever the groups answer |
| LegacyGroups.LoadedAndAll | canvas_ore_gr/src/main/java/edu/asu/dlsandy/AssignmentGroups.java:46-52 | the and of the answers is true exactly when every group loaded |
| LegacyGroups.LoadGradesIgnoresFailure | canvas_ore_gr/src/main/java/edu/asu/dlsandy/AssignmentGroups.java:46-52 | one failing group still gives true as written, and false as intended |
| LegacyGroups.LoadGrades | canvas_ore_gr/src/main/java/edu/asu/dlsandy/AssignmentGroups.java:46-52 | the loop as written returns true whatever the groups answer |
| LegacyGroups.LoadAllGrades | canvas_ore_gr/src/main/java/edu/asu/dlsandy/AssignmentGroups.java:46-52 | the corrected loop returns true exactly when every group loaded |
| LegacyGroups.GroupsContain | canvas_ore_gr/src/main/java/edu/asu/dlsandy/AssignmentGroups.java:166-176 | false without the named group, true when it exists and no assignment is asked for, otherwise the first group with the name decides whether it holds the assignment and criterion |
| LegacyGroups.ContainsIn | canvas_ore_gr/src/main/java/edu/asu/dlsandy/AssignmentGroups.java:166-176 | the loop computes the groups' contains answer |
| LegacyRubric.PlainKeys | canvas_ore_gr/src/main/java/edu/asu/dlsandy/CanvasRubric.java:57-112 | the row's key and the cell's key are different plain member names |
| LegacyRubric.MisspeltKeyDropsLongDescription | canvas_ore_gr/src/main/java/edu/asu/dlsandy/CanvasRubric.java:63 | a criterion object with a "long_description" member gives the row a null long description as written, and the text as intended |
| LegacyRubric.LegacyRow.constructor | canvas_ore_gr/src/main/java/edu/asu/dlsandy/CanvasRubric.java:41-71 | a row keeps the criterion's data, and its cells are the ratings in non-increasing points order, a permutation of them |
| LegacyRubric.SlotOf | canvas_ore_gr/src/main/java/edu/asu/dlsandy/CanvasRubric.java:156-180 | an index lands on an item exactly when it is within the list, past the end exactly when at or above the size, and nowhere when negative |
| LegacyRubric.SlotOffByOne | canvas_ore_gr/src/main/java/edu/asu/dlsandy/CanvasRubric.java:156-180 | at an index equal to the size the written guard reaches the list and throws, where the intended guard gives the default |
| LegacyRubric.SlotsAgreeElsewhere | canvas_ore_gr/src/main/java/edu/asu/dlsandy/CanvasRubric.java:156-180 | at every other index the two guards agree |
| LegacyRubric.RowNamedFrom | canvas_ore_gr/src/main/java/edu/asu/dlsandy/CanvasRubric.java:231-236 | the first row with the description, or None when no row has it |
| LegacyRubric.LegacyCanvasRubric.constructor | canvas_ore_gr/src/main/java/edu/asu/dlsandy/CanvasRubric.java:140-148 | a null array gives no rows and no score map, an array gives its rows and an empty score map |
| LegacyRubric.LegacyCanvasRubric.CellAt | canvas_ore_gr/src/main/java/edu/asu/dlsandy/CanvasRubric.java:156-160 | the cell within the rubric, null past the end of the rows or of the row, an exception for a negative index |
| LegacyRubric.LegacyCanvasRubric.RowPoints | canvas_ore_gr/src/main/java/edu/asu/dlsandy/CanvasRubric.java:165 | the row's points, 0 past the end, an exception for a negative index |
| LegacyRubric.LegacyCanvasRubric.RowId | canvas_ore_gr/src/main/java/edu/asu/dlsandy/CanvasRubric.java:170 | the row's id, "" past the end, an exception for a negative index |
| LegacyRubric.LegacyCanvasRubric.RowDescription | canvas_ore_gr/src/main/java/edu/asu/dlsandy/CanvasRubric.java:175 | the row's description, "" past the end, an exception for a negative index |
| LegacyRubric.LegacyCanvasRubric.RowLongDescriptionAt | canvas_ore_gr/src/main/java/edu/asu/dlsandy/CanvasRubric.java:180 | the row's long description, "" past the end, an exception for a negative index |
| LegacyRubric.LegacyCanvasRubric.SetRubricScores | canvas_ore_gr/src/main/java/edu/asu/dlsandy/CanvasRubric.java:193-205 | each given row score is put into the user's map, created when missing; no scores leave the table unchanged |
| LegacyRubric.LegacyCanvasRubric.GetStudentPointSum | canvas_ore_gr/src/main/java/edu/asu/dlsandy/CanvasRubric.java:214-223 | the sum of the user's row scores, 0 for a user with none |
| LegacyRubric.LegacyCanvasRubric.CriterionId | canvas_ore_gr/src/main/java/edu/asu/dlsandy/CanvasRubric.java:231-236 | found exactly when some row has the description, and then the id of the first such row |
| LegacyRubric.LegacyCanvasRubric.CriterionIdFromName | canvas_ore_gr/src/main/java/edu/asu/dlsandy/CanvasRubric.java:231-236 | the loop returns the id of the first row with the description, or null |
| LegacyRubric.LegacyCanvasRubric.MaximumPoints | canvas_ore_gr/src/main/java/edu/asu/dlsandy/CanvasRubric.java:256-261 | 0 without a row of that description, otherwise the points of the first such row, whose id the lookup finds |
| LegacyRubric.LegacyCanvasRubric.MaximumOutcomePoints | canvas_ore_gr/src/main/java/edu/asu/dlsandy/CanvasRubric.java:256-261 | the loop returns the points of the first row with the description, or 0 |
| LegacyRubric.LegacyCanvasRubric.Contains | canvas_ore_gr/src/main/java/edu/asu/dlsandy/CanvasRubric.java:266-273 | true exactly when a criterion id is found for the name |
| LegacyRubric.LegacyCanvasRubric.StudentPoints | canvas_ore_gr/src/main/java/edu/asu/dlsandy/CanvasRubric.java:244-249 | 0 for an unknown name or a user without scores, otherwise the user's score for the row |
| LegacyRubric.LegacyCanvasRubric.StudentOutcomePoints | canvas_ore_gr/src/main/java/edu/asu/dlsandy/CanvasRubric.java:244-249 | the method looks up the row id, then the user's score |
| LegacyRubric.PutScores | canvas_ore_gr/src/main/java/edu/asu/dlsandy/CanvasRubric.java:195-204 | the loop puts every given row score into the user's map |
| LegacyRubric.SumValues | canvas_ore_gr/src/main/java/edu/asu/dlsandy/CanvasRubric.java:217-222 | the loop adds the user's scores in row id order |
| LegacyRubric.FirstScoresSum | canvas_ore_gr/src/main/java/edu/asu/dlsandy/CanvasRubric.java:193-223 | scores given to a new user become that user's map, so the point sum is their sum; no scores add no user |
| LegacyOutcomes.SelectorFrom | canvas_ore_gr/src/main/java/edu/asu/dlsandy/CanvasOutcome.java:40-46 | an association reads its five members from the element's values |
| LegacyOutcomes.SelectorsFrom | canvas_ore_gr/src/main/java/edu/asu/dlsandy/CanvasOutcome.java:39-48 | one association per array element |
| LegacyOutcomes.LoadedSelectors | canvas_ore_gr/src/main/java/edu/asu/dlsandy/CanvasOutcome.java:37-48 | no associations without the member, else one per element |
| LegacyOutcomes.SelectorJson | canvas_ore_gr/src/main/java/edu/asu/dlsandy/CanvasOutcome.java:93-106 | an association is written as the object of its present members |
| LegacyOutcomes.SelectorsJson | canvas_ore_gr/src/main/java/edu/asu/dlsandy/CanvasOutcome.java:91-108 | one object per association |
| LegacyOutcomes.SelectorRoundTrip | canvas_ore_gr/src/main/java/edu/asu/dlsandy/CanvasOutcome.java:40-106 | reading back a written association gives the same association |
| LegacyOutcomes.WrittenReadable | canvas_ore_gr/src/main/java/edu/asu/dlsandy/CanvasOutcome.java:91-108 | every written association can be read back |
| LegacyOutcomes.SelectorListRoundTrip | canvas_ore_gr/src/main/java/edu/asu/dlsandy/CanvasOutcome.java:39-108 | reading back the written associations gives the same list |
| LegacyOutcomes.OutcomeRoundTrip | canvas_ore_gr/src/main/java/edu/asu/dlsandy/CanvasOutcome.java:34-111 | reading back a written outcome gives its title, its trimmed description and its associations |
| LegacyOutcomes.LegacyOutcome.constructor | canvas_ore_gr/src/main/java/edu/asu/dlsandy/CanvasOutcome.java:24-28 | the blank outcome has an empty title and description and no associations |
| LegacyOutcomes.LegacyOutcome.FromJson | canvas_ore_gr/src/main/java/edu/asu/dlsandy/CanvasOutcome.java:34-49 | the outcome holds the title, the cleaned description and one association per element |
| LegacyOutcomes.LegacyOutcome.AssociationsExist | canvas_ore_gr/src/main/java/edu/asu/dlsandy/CanvasOutcome.java:63-70 | true exactly when every association is found in the course's groups |
| LegacyOutcomes.LegacyOutcome.AssociationExists | canvas_ore_gr/src/main/java/edu/asu/dlsandy/CanvasOutcome.java:75-80 | true exactly when some stored association matches the argument |
| LegacyOutcomes.LegacyOutcome.ToJson | canvas_ore_gr/src/main/java/edu/asu/dlsandy/CanvasOutcome.java:86-111 | the object of the title, the trimmed description and the associations |
| LegacyOutcomes.LegacyOutcome.SetTitle | canvas_ore_gr/src/main/java/edu/asu/dlsandy/CanvasOutcome.java:132 | only the title changes |
| LegacyOutcomes.LegacyOutcome.SetDescription | canvas_ore_gr/src/main/java/edu/asu/dlsandy/CanvasOutcome.java:138 | only the description changes |
| LegacyOutcomes.OutcomesJson | canvas_ore_gr/src/main/java/edu/asu/dlsandy/CanvasOutcomes.java:94-98 | one object per outcome |
| LegacyOutcomes.LegacyOutcomeList.FromJson | canvas_ore_gr/src/main/java/edu/asu/dlsandy/CanvasOutcomes.java:53-65 | a null object gives an empty list; otherwise the course id and name, and one outcome per element of the outcomes array |
| LegacyOutcomes.LegacyOutcomeList.SetCourseId | canvas_ore_gr/src/main/java/edu/asu/dlsandy/CanvasOutcomes.java:80 | only the course id changes |
| LegacyOutcomes.LegacyOutcomeList.SetCourseName | canvas_ore_gr/src/main/java/edu/asu/dlsandy/CanvasOutcomes.java:85 | only the course name changes |
| LegacyOutcomes.LegacyOutcomeList.ToJson | canvas_ore_gr/src/main/java/edu/asu/dlsandy/CanvasOutcomes.java:90-101 | the object of the course id, the course name and the outcomes |
| LegacyOutcomes.OutcomeObjects | canvas_ore_gr/src/main/java/edu/asu/dlsandy/CanvasOutcomes.java:94-98 | the loop writes every outcome in order |
| LegacyOutcomes.AppendOutcome | canvas_ore_gr/src/main/java/edu/asu/dlsandy/CanvasOutcomes.java:95-97 | one step writes one more outcome |
| LegacyOutcomes.LoadOutcomes | canvas_ore_gr/src/main/java/edu/asu/dlsandy/CanvasOutcomes.java:60-64 | one outcome per element, each loaded from its element |
| LegacyOutcomes.CourseRoundTrip | canvas_ore_gr/src/main/java/edu/asu/dlsandy/CanvasOutcomes.java:53-93 | reading back the written list gives the course id and name |

## Left out

- Network access, single sign-on and the Canvas REST calls are not modelled. The constructors that fetch a course, its assignments, rubrics, quizzes and submissions take the fetched data as parameters: `Submission` records, the teams cache as `Option<set<string>>`, and the question bank title.
- Threads, progress dialogs and the Swing user interface are left out. From the threshold dialog, only its state and handlers are kept.
- Writing the report with Apache POI, the template file chooser and file I/O are left out. The template pass works on the template's text and produces the output text.
- DecimalFormat rendering of the report's numbers is left out. The symbol table keeps the numbers themselves, not their formatted text.
- IEEE doubles: scores are exact reals plus NaN (`Unknown`), and rounding error is not modelled. `Math.round` is modelled as the floor of x + 0.5 wherever the report applies it: the percents to thousandths and the tier shares to tenths.
- Java `int` and `long` overflow is not modelled, in counters, indexes or `Math.round`.
- Integer.parseInt, Long.parseLong and Double.parseDouble enter as a `NumberSyntax` parameter: partial maps from accepted texts to numbers.
- JsonArray.java is not part of this model. An array is taken to be written as '[', the elements separated by ',', then ']'. A getter path that reaches an array yields null, 0, 0.0 or false.
- OutcomeAssociation.java as it stands has no threshold fields, yet CanvasOutcome, ThresholdDlg and OutcomeReport use them. The two thresholds are explicit fields, and their defaults are 0.90 and 0.70.
- Assignment.java, Assignments.java and OutcomeAssociation.java of the older copy are not part of this model. There, an assignment enters as its id, its name and its score and maximum functions, and associations reuse the main copy's `Associations.OutcomeAssociation` names.
- Null dereferences are preconditions, not failures:
  - an association naming a missing assignment;
  - a missing rubric row score;
  - a question-group maximum on an assignment without a quiz;
  - a null quiz group id;
  - a null value in a tree written to JSON;
  - the score maps of a rubric built without an array, which stay null: only empty score and rating maps may be set on it, and neither getStudentPointSum nor the rubric branch of an assignment's getStudentOutcomePoints runs on it.
- The row and cell accessors of the main copy's CanvasRubric (get, getRow*) have the same off-by-one guard as the older copy. They are modelled only in `LegacyRubric`, because the scoring core reaches rows by name.
- The older copy's outcome list (`LegacyOutcomes.LegacyOutcomeList`) models the JSON constructor, toJson and the setters. The network-loading constructor is left out.
- Assignments.Assignment.LoadGrades: does not call the quiz's own loadGrades at the end of the grade loop. That is `QuestionGroups.QuestionGroup.LoadGrades`, a separate method fed with the quiz submissions.
- AssignmentGroupList.LoadGrades, LegacyGroups.LoadGrades: the per-group answers of loadGrades are inputs, because they come from the network.
- Rubric.AddOrdered: works on a sequence that the row constructor then stores, not on the Java ArrayList in place. Order and contents are the same.
- LegacyRubric.LegacyRow.constructor: takes the row's values rather than a JSON object. The key the JSON constructor reads is modelled separately, by `LegacyRubric.RowLongDescription`.
- XmlTemplate.TemplateReader.ReadLine: keeps the behaviour as written, including the fall-through on a quoted '>', because the template pass reads through it. The corrected scan appears only under Findings.
- LegacyRubric.LegacyCanvasRubric.CellAt, RowPoints and the other row accessors use the corrected guard. The as-written guard is kept apart, in `LegacyRubric.SlotAsWritten`.
- Outcomes.LoadedAssociations: an association element without "assignment_group_name" is excluded by `Outcomes.ElementLoadable`, although Java loads it with a null group name. The group name is a string in this model, so that null has no value. Downstream in Java no group name equals it, and `matches` throws on it.
- Outcomes.CanvasOutcome.FromJson: same exclusion of a missing "assignment_group_name", for the same reason.
- LegacyOutcomes.AllReadable: the older copy's loader has the same exclusion of a missing "assignment_group_name", for the same reason.
- Assignments.Assignment.StudentOutcomePoints: a rubric score is a real (`Assignments.Submission`), so the NaN that getDouble("points") gives for a missing or non-numeric criterion score is not represented. The rubric point sum and the rescaled criterion points therefore never come out NaN here, whereas in Java they can.
- Rubric.CanvasRubric.GetStudentPointSum: no NaN rubric score, for the same reason.
- Thresholds.AreThresholdsValid: thresholds are reals, so a NaN threshold is not represented. Java accepts the pair (NaN, NaN), because every comparison with NaN is false.
- Thresholds.ValidIff: the same NaN pair is outside the equivalence it states.
- Rubric.NameLevel: lower-cases ASCII letters only. Java's toLowerCase also folds non-ASCII letters and depends on the default locale (with a Turkish locale, "I" lower-cases to a dotless i, so "INSUFFICIENT" would not be recognised).
- JavaStrings.EqualsIgnoreCase: folds ASCII letters only. Java's equalsIgnoreCase also equates non-ASCII letters that differ in case.
- JavaStrings.Less: compares Unicode scalar values. Java's compareTo compares UTF-16 code units, so a character beyond U+FFFF sorts below U+E000..U+FFFF in Java and above them here. The two orders agree on text without such characters.
- Text entries of the symbol table are not modelled (names, descriptions, formatted totals). Its KPI tiers, verdicts, percents and tallies are.

## Findings

| source | as written | input that shows it | evidently intended | confidence | as-written member | corrected member |
|---|---|---|---|---|---|---|
| src/main/java/edu/asu/dlsandy/canvas_ore/CanvasOutcome.java:60-72 | associationsExist returns true as soon as one association is not in the course, and false when all are | an outcome whose only association names a group the course has: the method answers false | true exactly when every association is in the course, as the method's comment says | high (the comment and the loop disagree); not executed | Outcomes.CanvasOutcome.AssociationsExist, Outcomes.AssociationsExistInverted | Outcomes.AllAssociationsInCourse |
| canvas_ore_gr/src/main/java/edu/asu/dlsandy/CanvasRubric.java:63 | the rubric row reads its long description under the key "long_descripion" | a criterion object holding "long_description": "text": the row's long description is null | read "long_description", as the cell constructor at line 111 and the main copy do | high; not executed | LegacyRubric.RowLongDescription, LegacyRubric.MisspeltKeyDropsLongDescription | LegacyRubric.IntendedRowLongDescription |
| canvas_ore_gr/src/main/java/edu/asu/dlsandy/CanvasRubric.java:156-180 | the row and cell accessors test "row > rows.size()" before indexing | row equal to the number of rows: the guard passes and get throws IndexOutOfBoundsException | "row >= rows.size()", which gives the accessor's default | high; not executed | LegacyRubric.SlotAsWritten, LegacyRubric.SlotOffByOne | LegacyRubric.SlotOf |
| canvas_ore_gr/src/main/java/edu/asu/dlsandy/AssignmentGroups.java:46-52 | loadGrades starts from true and only ORs in each group's answer | two groups, one failing to load: the method answers true | true only when every group loaded (result &= …) | medium (the OR may be deliberate); not executed | LegacyGroups.LoadGrades, LegacyGroups.LoadGradesIgnoresFailure | LegacyGroups.LoadAllGrades |
| src/main/java/edu/asu/dlsandy/canvas_ore/ThresholdDlg.java:96-101 | Use Defaults sets both fields to DEFAULT_EXCEEDS_THRESHOLD | pressing Use Defaults gives the pair (0.9, 0.9), which areThresholdsValid rejects | demonstrates set to DEFAULT_DEMONSTRATES_THRESHOLD | high; not executed | Thresholds.ThresholdDialog.UseDefaults, Thresholds.UseDefaultsInvalid | Thresholds.ThresholdDialog.UseDefaultPair |
| src/main/java/edu/asu/dlsandy/canvas_ore/XmlTemplateReader.java:48-54 | the '>' case lacks a break, so a '>' inside quotes falls through and toggles the in-quotes flag | the text `">"x>` gives null, although its last '>' lies outside quotes | a '>' inside a quoted string neither ends the line nor toggles the flag, as the comment on readLine describes | medium (templates seldom quote '>'); not executed | XmlTemplate.LineEnd, XmlTemplate.QuotedCloseToggles | XmlTemplate.IntendedScan, XmlTemplate.IntendedFirstClose |
