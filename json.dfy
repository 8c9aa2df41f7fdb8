/**
 * The JSON element tree of the application (JsonObject, JsonArray, JsonValue):
 * value construction, the dotted-path getters and the writer used to save
 * outcome files.
 */
module Json {
  import opened Wrappers
  import opened JavaStrings
  import opened Scores

  /**
   * A JSON element. An object is a TreeMap from keys to elements, an array a
   * list of elements, and a value holds its text as written, or null.
   */
  datatype Json = Obj(fields: map<string, Json>) | Arr(elems: seq<Json>) | Val(text: Option<string>)

  /**
   * Integer.parseInt, Long.parseLong and Double.parseDouble as partial maps
   * from the texts each accepts to the number it reads; a text outside a
   * map's domain stands for a NumberFormatException.
   */
  datatype NumberSyntax = NumberSyntax(
    ints: imap<string, int>,
    longs: imap<string, int>,
    doubles: imap<string, real>)

  /** text.equalsIgnoreCase("null"), letter by letter. */
  predicate IsNullText(text: string)
  {
    |text| == 4 && LowerChar(text[0]) == 'n' && LowerChar(text[1]) == 'u' &&
    LowerChar(text[2]) == 'l' && LowerChar(text[3]) == 'l'
  }

  lemma {:induction false} IsNullTextIgnoresCase(text: string)
    ensures IsNullText(text) <==> EqualsIgnoreCase(text, "null")
  {
    var a, b := Lower(text), Lower("null");
    assert b == "null";
    if IsNullText(text) {
      assert a == b;
    }
    if a == b {
      assert |text| == 4 && a[0] == 'n' && a[1] == 'u' && a[2] == 'l' && a[3] == 'l';
    }
  }

  /** The JsonValue constructor: the text "null", in any letter case, is stored as a null value. */
  function MakeValue(text: string): (j: Json)
    ensures j.Val?
    ensures j.text.None? <==> IsNullText(text)
    ensures j.text.Some? ==> j.text.value == text
  {
    if IsNullText(text) then Val(None) else Val(Some(text))
  }

  /** StringBuilder.append of a possibly null string. */
  function NullText(v: Option<string>): string
  {
    if v.Some? then v.value else "null"
  }

  /** The index of the first '.' in spec at or after `from`, or |spec| when there is none. */
  function DotIndex(spec: string, from: nat): (i: nat)
    requires from <= |spec|
    ensures from <= i <= |spec|
    decreases |spec| - from
  {
    if from == |spec| || spec[from] == '.' then from else DotIndex(spec, from + 1)
  }

  lemma {:induction false} DotIndexSpec(spec: string, from: nat)
    requires from <= |spec|
    ensures DotIndex(spec, from) < |spec| ==> spec[DotIndex(spec, from)] == '.'
    ensures forall k :: from <= k < DotIndex(spec, from) ==> spec[k] != '.'
    decreases |spec| - from
  {
    if from < |spec| && spec[from] != '.' {
      DotIndexSpec(spec, from + 1);
    }
  }

  /** specifier.split("[.]", 2): the text before the first '.', and the text after it when there is a '.'. */
  function SplitSpecifier(spec: string): (string, Option<string>)
  {
    var i := DotIndex(spec, 0);
    if i == |spec| then (spec, None) else (spec[..i], Some(spec[i + 1..]))
  }

  /** The split cuts at the first '.': the whole text when there is none. */
  lemma SplitSpecifierSpec(spec: string)
    ensures SplitSpecifier(spec).1.None? <==> '.' !in spec
    ensures SplitSpecifier(spec).1.None? ==> SplitSpecifier(spec).0 == spec
    ensures SplitSpecifier(spec).1.Some? ==>
              spec == SplitSpecifier(spec).0 + "." + SplitSpecifier(spec).1.value && '.' !in SplitSpecifier(spec).0
  {
    DotIndexSpec(spec, 0);
    var i := DotIndex(spec, 0);
    if i < |spec| {
      assert spec == spec[..i] + "." + spec[i + 1..];
    } else {
      assert spec[..i] == spec;
    }
  }

  /**
   * getValue(specifier). An empty object gives "" for every specifier; an empty
   * specifier lists an object's members; otherwise the head key selects a member
   * and the rest of the path is looked up in it. JsonArray's getters are not
   * part of this model: a path that reaches an array gives null.
   */
  function GetValue(j: Json, spec: string): (r: Option<string>)
    decreases j, 1, 0
  {
    match j
    case Val(t) =>
      if spec != "" then Some("")
      else if t.None? || IsNullText(t.value) then None
      else t
    case Arr(_) => None
    case Obj(m) =>
      if m == map[] then Some("")
      else if spec == "" then SortedKeysSpec(m.Keys); Some(Listing(j, SortedKeys(m.Keys)))
      else
        var (head, rest) := SplitSpecifier(spec);
        if head !in m then None
        else if rest.Some? then Some(NullText(GetValue(m[head], rest.value)))
        else GetValue(m[head], "")
  }

  /** The empty-specifier listing: "key:value\n" for each member in key order, a null value printed as "null". */
  function Listing(j: Json, keys: seq<string>): string
    requires j.Obj? && forall k :: k in keys ==> k in j.fields
    decreases j, 0, |keys|
  {
    if keys == [] then ""
    else keys[0] + ":" + NullText(GetValue(j.fields[keys[0]], "")) + "\n" + Listing(j, keys[1..])
  }

  /** The member a typed getter descends into, and the specifier it passes on. */
  function Step(m: map<string, Json>, spec: string): (r: Option<(Json, string)>)
    ensures r.Some? ==> r.value.0 in m.Values
  {
    var (head, rest) := SplitSpecifier(spec);
    if head !in m then None
    else Some((m[head], if rest.Some? then rest.value else ""))
  }

  /** getInteger: the parsed int, else 0 (empty object, missing key, non-empty specifier on a value, parse failure or null). */
  function GetInteger(j: Json, spec: string, num: NumberSyntax): (r: int)
    decreases j
  {
    match j
    case Val(t) =>
      if spec != "" || t.None? then 0
      else if t.value in num.ints then num.ints[t.value]
      else 0
    case Arr(_) => 0
    case Obj(m) =>
      if m == map[] then 0
      else match Step(m, spec)
        case None => 0
        case Some((child, rest)) => GetInteger(child, rest, num)
  }

  /** getDouble: NaN (Unknown) for a null value, else the parsed double, else 0.0. */
  function GetDouble(j: Json, spec: string, num: NumberSyntax): (r: Score)
    decreases j
  {
    match j
    case Val(t) =>
      if spec != "" then Known(0.0)
      else if t.None? then Unknown
      else if t.value in num.doubles then Known(num.doubles[t.value])
      else Known(0.0)
    case Arr(_) => Known(0.0)
    case Obj(m) =>
      if m == map[] then Known(0.0)
      else match Step(m, spec)
        case None => Known(0.0)
        case Some((child, rest)) => GetDouble(child, rest, num)
  }

  /** getBoolean: Boolean.parseBoolean of the value, false elsewhere. */
  function GetBoolean(j: Json, spec: string): (r: bool)
    decreases j
  {
    match j
    case Val(t) => spec == "" && t.Some? && EqualsIgnoreCase(t.value, "true")
    case Arr(_) => false
    case Obj(m) =>
      if m == map[] then false
      else match Step(m, spec)
        case None => false
        case Some((child, rest)) => GetBoolean(child, rest)
  }

  /** A specifier that starts with a key free of '.' splits into that key and the rest of the path. */
  lemma SplitAtFirstDot(head: string, rest: string)
    requires '.' !in head
    ensures SplitSpecifier(head + "." + rest) == (head, Some(rest))
  {
    var spec := head + "." + rest;
    SplitSpecifierSpec(spec);
    assert spec[|head|] == '.';
    var (h, t) := SplitSpecifier(spec);
    assert t.Some?;
    assert spec == h + "." + t.value;
    assert spec[|h|] == '.';
    assert h == spec[..|h|] == head;
    assert t.value == spec[|h| + 1..] == rest;
  }

  /**
   * The path rule of getValue on a non-empty object: a head key the object
   * lacks gives null, a key alone gives the member's own getValue(""), and a
   * key followed by '.' gives the member's value for the rest of the path,
   * a null one appended as "null".
   */
  lemma GetValuePath(m: map<string, Json>, head: string, rest: Option<string>)
    requires m != map[] && '.' !in head && (rest.None? ==> head != "")
    ensures head !in m ==> GetValue(Obj(m), Path(head, rest)) == None
    ensures head in m && rest.None? ==> GetValue(Obj(m), Path(head, rest)) == GetValue(m[head], "")
    ensures head in m && rest.Some? ==> GetValue(Obj(m), Path(head, rest)) == Some(NullText(GetValue(m[head], rest.value)))
  {
    if rest.Some? {
      SplitAtFirstDot(head, rest.value);
    } else {
      SplitSpecifierSpec(head);
    }
  }

  /**
   * The path rule of getInteger, getDouble and getBoolean on a non-empty
   * object: a head key the object lacks gives 0, 0.0 or false, and otherwise
   * the member answers for the rest of the path (the empty specifier when
   * there is no '.').
   */
  lemma TypedGettersPath(m: map<string, Json>, head: string, rest: Option<string>, num: NumberSyntax)
    requires m != map[] && '.' !in head
    ensures head !in m ==>
              GetInteger(Obj(m), Path(head, rest), num) == 0 && GetDouble(Obj(m), Path(head, rest), num) == Known(0.0)
              && !GetBoolean(Obj(m), Path(head, rest))
    ensures head in m ==>
              var sub := if rest.Some? then rest.value else "";
              GetInteger(Obj(m), Path(head, rest), num) == GetInteger(m[head], sub, num)
              && GetDouble(Obj(m), Path(head, rest), num) == GetDouble(m[head], sub, num)
              && GetBoolean(Obj(m), Path(head, rest)) == GetBoolean(m[head], sub)
  {
    if rest.Some? {
      SplitAtFirstDot(head, rest.value);
    } else {
      SplitSpecifierSpec(head);
    }
  }

  /** An empty object answers every specifier with "", 0, 0.0 and false. */
  lemma EmptyObjectGetters(spec: string, num: NumberSyntax)
    ensures GetValue(Obj(map[]), spec) == Some("")
    ensures GetInteger(Obj(map[]), spec, num) == 0 && GetDouble(Obj(map[]), spec, num) == Known(0.0)
    ensures !GetBoolean(Obj(map[]), spec)
  {
  }

  /** The specifier made of a key and, after a '.', the rest of a path. */
  function Path(head: string, rest: Option<string>): string
  {
    if rest.Some? then head + "." + rest.value else head
  }

  /**
   * The getters of a JsonValue built from text: with the empty specifier,
   * getValue gives the text or null, getInteger the parsed int or 0, getDouble
   * NaN for a null text and otherwise the parsed double or 0.0, and getBoolean
   * holds exactly for "true" in any letter case; any other specifier gives "",
   * 0, 0.0 and false.
   */
  lemma {:induction false} ValueGetters(text: string, spec: string, num: NumberSyntax)
    ensures spec != "" ==>
              GetValue(MakeValue(text), spec) == Some("") && GetInteger(MakeValue(text), spec, num) == 0
              && GetDouble(MakeValue(text), spec, num) == Known(0.0) && !GetBoolean(MakeValue(text), spec)
    ensures spec == "" ==>
              && (GetValue(MakeValue(text), spec) == if IsNullText(text) then None else Some(text))
              && (GetInteger(MakeValue(text), spec, num) == if !IsNullText(text) && text in num.ints then num.ints[text] else 0)
              && (GetDouble(MakeValue(text), spec, num) ==
                    if IsNullText(text) then Unknown else if text in num.doubles then Known(num.doubles[text]) else Known(0.0))
    ensures GetBoolean(MakeValue(text), spec) <==> spec == "" && EqualsIgnoreCase(text, "true")
  {
    if IsNullText(text) {
      IsNullTextIgnoresCase(text);
      assert Lower("null") == "null" && Lower("true") == "true";
    }
  }

  /** Every value in the tree is non-null: JsonValue.writeToFile dereferences its value. */
  predicate NoNulls(j: Json)
    decreases j
  {
    match j
    case Val(t) => t.Some?
    case Arr(es) => forall i :: 0 <= i < |es| ==> NoNulls(es[i])
    case Obj(m) => forall k :: k in m ==> NoNulls(m[k])
  }

  /** A value is written bare when Double.parseDouble or Long.parseLong accepts it. */
  predicate IsNumber(num: NumberSyntax, v: string)
  {
    v in num.doubles || v in num.longs
  }

  /**
   * writeToFile as text: an object is '{', its members "key":value in key order
   * separated by ',', then '}'; a value is bare when numeric and otherwise in
   * double quotes, with no escaping anywhere. JsonArray's writer is not part of
   * this model; it is taken to write '[', the elements separated by ',', and ']'.
   */
  function Serialize(j: Json, num: NumberSyntax): string
    requires NoNulls(j)
    decreases j, 1, 0
  {
    match j
    case Val(t) => if IsNumber(num, t.value) then t.value else "\"" + t.value + "\""
    case Obj(m) => SortedKeysSpec(m.Keys); "{" + Members(j, SortedKeys(m.Keys), |m|, num) + "}"
    case Arr(es) => "[" + Elements(j, |es|, num) + "]"
  }

  /** One member of an object as written: "key":value. */
  function Member(j: Json, k: string, num: NumberSyntax): string
    requires j.Obj? && NoNulls(j) && k in j.fields
    decreases j, 0, 0
  {
    "\"" + k + "\":" + Serialize(j.fields[k], num)
  }

  /** The first n members of an object, in the order of keys, separated by ','. */
  function Members(j: Json, keys: seq<string>, n: nat, num: NumberSyntax): string
    requires j.Obj? && NoNulls(j) && n <= |keys| && forall i :: 0 <= i < |keys| ==> keys[i] in j.fields
    decreases j, 0, n + 1
  {
    if n == 0 then ""
    else if n == 1 then Member(j, keys[0], num)
    else Members(j, keys, n - 1, num) + ("," + Member(j, keys[n - 1], num))
  }

  /** The first n elements of an array as written, separated by ','. */
  function Elements(j: Json, n: nat, num: NumberSyntax): string
    requires j.Arr? && NoNulls(j) && n <= |j.elems|
    decreases j, 0, n + 1
  {
    if n == 0 then ""
    else if n == 1 then Serialize(j.elems[0], num)
    else Elements(j, n - 1, num) + ("," + Serialize(j.elems[n - 1], num))
  }

  lemma {:induction false} ConcatMember(before: string, sep: string, k: string, value: string, item: string, after: string)
    requires item == "\"" + k + "\":" + value
    requires after == before + sep + "\"" + k + "\":" + value
    ensures after == before + (sep + item)
  {
  }

  /** A character sink: the BufferedWriter the outcome file is written through. */
  class OutputBuffer {
    var text: string

    constructor ()
      ensures text == ""
    {
      text := "";
    }

    method Append(t: string)
      modifies this
      ensures text == old(text) + t
    {
      text := text + t;
    }
  }

  /** JsonObject / JsonValue writeToFile: appends the element's text to the writer. */
  method WriteToFile(j: Json, num: NumberSyntax, out: OutputBuffer)
    requires NoNulls(j)
    modifies out
    ensures out.text == old(out.text) + Serialize(j, num)
    decreases j, 3
  {
    match j
    case Val(t) =>
      var isNumber := t.value in num.doubles;
      if t.value in num.longs {
        isNumber := true;
      }
      if !isNumber { out.Append("\""); }
      out.Append(t.value);
      if !isNumber { out.Append("\""); }
    case Obj(_) =>
      WriteObject(j, num, out);
    case Arr(_) =>
      WriteArray(j, num, out);
  }

  method WriteObject(j: Json, num: NumberSyntax, out: OutputBuffer)
    requires j.Obj? && NoNulls(j)
    modifies out
    ensures out.text == old(out.text) + Serialize(j, num)
    decreases j, 2
  {
    ghost var start := out.text;
    out.Append("{");
    var keys := SortedKeys(j.fields.Keys);
    SortedKeysSpec(j.fields.Keys);
    WriteMembers(j, keys, num, out);
    out.Append("}");
    ConcatClose(start, "{", Members(j, keys, |keys|, num), "}", out.text);
  }

  /** The loop of JsonObject.writeToFile over the entries in key order. */
  method WriteMembers(j: Json, keys: seq<string>, num: NumberSyntax, out: OutputBuffer)
    requires j.Obj? && NoNulls(j) && forall x :: 0 <= x < |keys| ==> keys[x] in j.fields
    modifies out
    ensures out.text == old(out.text) + Members(j, keys, |keys|, num)
    decreases j, 1
  {
    var isFirst := true;
    var i := 0;
    while i < |keys|
      invariant 0 <= i <= |keys|
      invariant isFirst <==> i == 0
      invariant out.text == old(out.text) + Members(j, keys, i, num)
    {
      ghost var before := out.text;
      WriteMember(j, keys[i], isFirst, num, out);
      isFirst := false;
      MembersStep(j, keys, i, num, old(out.text), before, out.text);
      i := i + 1;
    }
  }

  lemma {:induction false} MembersStep(j: Json, keys: seq<string>, i: nat, num: NumberSyntax, start: string, before: string, after: string)
    requires j.Obj? && NoNulls(j) && i < |keys| && forall x :: 0 <= x < |keys| ==> keys[x] in j.fields
    requires before == start + Members(j, keys, i, num)
    requires after == before + ((if i == 0 then "" else ",") + Member(j, keys[i], num))
    ensures after == start + Members(j, keys, i + 1, num)
  {
    var member := Member(j, keys[i], num);
    if i == 0 {
      assert Members(j, keys, 1, num) == member;
      assert "" + member == member;
    } else {
      assert Members(j, keys, i + 1, num) == Members(j, keys, i, num) + ("," + member);
    }
  }

  lemma {:induction false} ConcatClose(start: string, open: string, body: string, close: string, after: string)
    requires after == start + open + body + close
    ensures after == start + (open + body + close)
  {
  }

  /** One iteration of JsonObject.writeToFile's loop: the separator unless first, then "key": and the value. */
  method WriteMember(j: Json, k: string, isFirst: bool, num: NumberSyntax, out: OutputBuffer)
    requires j.Obj? && NoNulls(j) && k in j.fields
    modifies out
    ensures out.text == old(out.text) + ((if isFirst then "" else ",") + Member(j, k, num))
    decreases j, 0
  {
    ghost var before := out.text;
    if !isFirst { out.Append(","); }
    out.Append("\"");
    out.Append(k);
    out.Append("\":");
    WriteToFile(j.fields[k], num, out);
    ConcatMember(before, if isFirst then "" else ",", k, Serialize(j.fields[k], num), Member(j, k, num), out.text);
  }

  method WriteArray(j: Json, num: NumberSyntax, out: OutputBuffer)
    requires j.Arr? && NoNulls(j)
    modifies out
    ensures out.text == old(out.text) + Serialize(j, num)
    decreases j, 2
  {
    ghost var start := out.text;
    out.Append("[");
    WriteElements(j, num, out);
    out.Append("]");
    ConcatClose(start, "[", Elements(j, |j.elems|, num), "]", out.text);
  }

  /** The loop of JsonArray.writeToFile over the elements in order. */
  method WriteElements(j: Json, num: NumberSyntax, out: OutputBuffer)
    requires j.Arr? && NoNulls(j)
    modifies out
    ensures out.text == old(out.text) + Elements(j, |j.elems|, num)
    decreases j, 1
  {
    var es := j.elems;
    var i := 0;
    while i < |es|
      invariant 0 <= i <= |es|
      invariant out.text == old(out.text) + Elements(j, i, num)
    {
      ghost var before := out.text;
      if i > 0 { out.Append(","); }
      WriteToFile(es[i], num, out);
      ElementsStep(j, i, num, old(out.text), before, out.text);
      i := i + 1;
    }
  }

  lemma {:induction false} ElementsStep(j: Json, i: nat, num: NumberSyntax, start: string, before: string, after: string)
    requires j.Arr? && NoNulls(j) && i < |j.elems|
    requires before == start + Elements(j, i, num)
    requires after == before + (if i == 0 then "" else ",") + Serialize(j.elems[i], num)
    ensures after == start + Elements(j, i + 1, num)
  {
    var piece := (if i == 0 then "" else ",") + Serialize(j.elems[i], num);
    assert Elements(j, i + 1, num) == Elements(j, i, num) + piece;
  }
}
