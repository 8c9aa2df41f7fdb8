/**
 * The save/load round trip of outcome files: JsonObject.writeToFile followed
 * by JsonResultFactory.build gives back the same tree, for the trees the
 * reader can take back. The writer escapes nothing and the reader decodes
 * nothing, so keys and values must hold no '"' or '\\'; a value written bare
 * must end at a delimiter the reader stops on; "{}" moves the reader one
 * character too far, so nested objects must have members; and array elements
 * must begin with '"' or '{'.
 */
module JsonRoundTrip {
  import opened Wrappers
  import opened JavaStrings
  import opened Json
  import opened JsonParser

  /** Text the writer copies and the reader reads back unchanged: no quote and no backslash. */
  predicate PlainText(t: string)
  {
    forall i :: 0 <= i < |t| ==> t[i] != '"' && t[i] != '\\'
  }

  /** A value written bare: the reader must not take it for an array or object, and it must end at the next delimiter. */
  predicate BareText(t: string)
  {
    (|t| > 0 ==> t[0] != '[' && t[0] != '{') && forall i :: 0 <= i < |t| ==> !IsDelimiter(t[i])
  }

  /** A member value: a nested object must not be empty. */
  predicate MemberOk(v: Json)
  {
    v.Obj? ==> v.fields != map[]
  }

  /** An array element: a non-empty object or a quoted value. */
  predicate ElementOk(e: Json, num: NumberSyntax)
  {
    (e.Obj? && e.fields != map[]) || (e.Val? && e.text.Some? && !IsNumber(num, e.text.value))
  }

  /** The shape conditions on every element of the tree. */
  predicate Fits(j: Json, num: NumberSyntax)
    decreases j
  {
    match j
    case Val(t) =>
      t.Some? && !IsNullText(t.value) && PlainText(t.value) &&
      (IsNumber(num, t.value) ==> BareText(t.value))
    case Obj(m) => forall k :: k in m ==> PlainText(k) && MemberOk(m[k]) && Fits(m[k], num)
    case Arr(es) => forall i :: 0 <= i < |es| ==> ElementOk(es[i], num) && Fits(es[i], num)
  }

  /** A tree whose written text reads back as the same tree. */
  predicate Storable(j: Json, num: NumberSyntax)
  {
    NoNulls(j) && Fits(j, num)
  }

  /** The text t occurs in s at p. */
  predicate At(s: string, p: nat, t: string)
  {
    p + |t| <= |s| && forall i {:trigger t[i]} :: 0 <= i < |t| ==> s[p + i] == t[i]
  }

  lemma {:induction false} AtSplit(s: string, p: nat, a: string, b: string)
    requires At(s, p, a + b)
    ensures At(s, p, a) && At(s, p + |a|, b)
  {
    forall i | 0 <= i < |a|
      ensures s[p + i] == a[i]
    {
      assert (a + b)[i] == a[i];
    }
    forall i | 0 <= i < |b|
      ensures s[p + |a| + i] == b[i]
    {
      assert (a + b)[|a| + i] == b[i];
    }
  }

  lemma {:induction false} AtChar(s: string, p: nat, t: string, i: nat)
    requires At(s, p, t) && i < |t|
    ensures s[p + i] == t[i]
  {
  }

  /** The text between two positions of s, read off where it was written. */
  lemma {:induction false} AtSlice(s: string, p: nat, t: string)
    requires At(s, p, t)
    ensures s[p..p + |t|] == t
  {
    assert forall i :: 0 <= i < |t| ==> s[p..p + |t|][i] == t[i];
  }

  /** A written member "k":text: the key reads back, then ':' and the value text. */
  lemma {:induction false} MemberParts(s: string, start: nat, k: string, text: string)
    requires PlainText(k) && At(s, start, "\"" + k + "\":" + text)
    ensures QuotedText(s, start) == Some((k, start + |k| + 2))
    ensures start + |k| + 2 < |s| && s[start + |k| + 2] == ':'
    ensures At(s, start + |k| + 3, text)
  {
    AtSplit(s, start, "\"" + k + "\":", text);
    assert "\"" + k + "\":" == ("\"" + k + "\"") + ":";
    AtSplit(s, start, "\"" + k + "\"", ":");
    QuotedAt(s, start, k);
    AtChar(s, start + |k| + 2, ":", 0);
  }

  /** A quoted plain text reads back as itself, the cursor after the closing quote. */
  lemma {:induction false} QuotedAt(s: string, p: nat, t: string)
    requires PlainText(t) && At(s, p, "\"" + t + "\"")
    ensures QuotedText(s, p) == Some((t, p + |t| + 2))
  {
    var text := "\"" + t + "\"";
    var close := p + |t| + 1;
    AtChar(s, p, text, 0);
    AtChar(s, p, text, |t| + 1);
    forall q: nat | p < q < close
      ensures !ClosesAt(s, p, q)
    {
      AtChar(s, p, text, q - p);
    }
    if close > p + 1 {
      AtChar(s, p, text, |t|);
    }
    assert ClosesAt(s, p, close);
    CloseQuoteFirst(s, p, p + 1);
    assert CloseQuote(s, p, p + 1) == Some(close);
    AtSplit(s, p, "\"" + t, "\"");
    AtSplit(s, p, "\"", t);
    AtSlice(s, p + 1, t);
  }

  /** A bare text followed by a delimiter reads back as itself, the cursor on the delimiter. */
  lemma {:induction false} RawAt(s: string, p: nat, t: string)
    requires BareText(t) && At(s, p, t) && p + |t| < |s| && IsDelimiter(s[p + |t|])
    ensures RawText(s, p) == Some((t, p + |t|))
  {
    forall q | p <= q < p + |t|
      ensures !IsDelimiter(s[q])
    {
      AtChar(s, p, t, q - p);
    }
    NextDelimiterFirst(s, p);
    AtSlice(s, p, t);
  }

  /** The written text of an array element begins with '"' or '{'. */
  lemma {:induction false} ElementOpens(e: Json, num: NumberSyntax)
    requires NoNulls(e) && ElementOk(e, num)
    ensures |Serialize(e, num)| > 0 && (Serialize(e, num)[0] == '"' || Serialize(e, num)[0] == '{')
  {
  }

  lemma {:induction false} SliceSnoc(es: seq<Json>, i: nat)
    requires i < |es|
    ensures es[..i] + [es[i]] == es[..i + 1]
    ensures i + 1 == |es| ==> es[..i + 1] == es
  {
  }

  /** The map the reader has built after the first i members. */
  function Prefix(m: map<string, Json>, keys: seq<string>, i: nat): (r: map<string, Json>)
    requires i <= |keys| && forall x :: 0 <= x < |keys| ==> keys[x] in m
  {
    if i == 0 then map[] else Prefix(m, keys, i - 1)[keys[i - 1] := m[keys[i - 1]]]
  }

  lemma {:induction false} PrefixAll(m: map<string, Json>, keys: seq<string>, i: nat)
    requires i <= |keys| && forall x :: 0 <= x < |keys| ==> keys[x] in m
    ensures forall k :: k in Prefix(m, keys, i) <==> k in keys[..i]
    ensures forall k :: k in Prefix(m, keys, i) ==> Prefix(m, keys, i)[k] == m[k]
  {
    if i > 0 {
      PrefixAll(m, keys, i - 1);
      assert keys[..i] == keys[..i - 1] + [keys[i - 1]];
    }
  }

  /**
   * The text of a storable element at p reads back as that element, the
   * cursor just after it; a bare value must be followed by a delimiter.
   */
  lemma {:induction false} ValueBack(s: string, p: nat, j: Json, num: NumberSyntax)
    requires Storable(j, num) && MemberOk(j) && At(s, p, Serialize(j, num))
    requires j.Val? && IsNumber(num, j.text.value) ==>
      p + |Serialize(j, num)| < |s| && IsDelimiter(s[p + |Serialize(j, num)|])
    ensures ValueAt(s, p) == Ok(Parsed(j, p + |Serialize(j, num)|))
    decreases j, 3
  {
    match j
    case Val(t) =>
      if IsNumber(num, t.value) {
        RawAt(s, p, t.value);
        if |t.value| > 0 {
          AtChar(s, p, t.value, 0);
        }
      } else {
        QuotedAt(s, p, t.value);
        AtChar(s, p, Serialize(j, num), 0);
      }
    case Obj(m) =>
      ObjectBack(s, p, j, num);
    case Arr(es) =>
      ArrayBack(s, p, j, num);
  }

  /** The members of an object from the i-th key on, as written, and the '}' that closes them. */
  function MembersRest(j: Json, keys: seq<string>, i: nat, num: NumberSyntax): string
    requires j.Obj? && NoNulls(j) && i < |keys| && forall x :: 0 <= x < |keys| ==> keys[x] in j.fields
    decreases |keys| - i
  {
    Member(j, keys[i], num) + MembersAfter(j, keys, i, num)
  }

  /** What follows the i-th member: '}' after the last, else ',' and the remaining members. */
  function MembersAfter(j: Json, keys: seq<string>, i: nat, num: NumberSyntax): string
    requires j.Obj? && NoNulls(j) && i < |keys| && forall x :: 0 <= x < |keys| ==> keys[x] in j.fields
    decreases |keys| - i, 0
  {
    if i + 1 == |keys| then "}" else "," + MembersRest(j, keys, i + 1, num)
  }

  /** The first i members and what follows them make the whole member list and its '}'. */
  lemma {:induction false} MembersSplit(j: Json, keys: seq<string>, i: nat, num: NumberSyntax)
    requires j.Obj? && NoNulls(j) && 0 < i <= |keys| && forall x :: 0 <= x < |keys| ==> keys[x] in j.fields
    ensures Members(j, keys, |keys|, num) + "}" ==
      Members(j, keys, i, num) + (if i == |keys| then "}" else "," + MembersRest(j, keys, i, num))
    decreases |keys| - i
  {
    if i < |keys| {
      MembersSplit(j, keys, i + 1, num);
      var tail := MembersAfter(j, keys, i, num);
      assert Members(j, keys, i + 1, num) == Members(j, keys, i, num) + ("," + Member(j, keys[i], num));
      assert Members(j, keys, i + 1, num) + tail == Members(j, keys, i, num) + ("," + (Member(j, keys[i], num) + tail));
    }
  }

  /** A written object is '{', its first member and what follows it. */
  lemma {:induction false} ObjectText(j: Json, num: NumberSyntax)
    requires j.Obj? && j.fields != map[] && NoNulls(j)
    ensures var keys := SortedKeys(j.fields.Keys);
      |keys| > 0 && (forall x :: 0 <= x < |keys| ==> keys[x] in j.fields) &&
      Serialize(j, num) == "{" + MembersRest(j, keys, 0, num)
  {
    var keys := SortedKeys(j.fields.Keys);
    SortedKeysSpec(j.fields.Keys);
    assert |keys| > 0 by {
      var k :| k in j.fields;
    }
    MembersSplit(j, keys, 1, num);
  }

  lemma {:induction false} ObjectBack(s: string, p: nat, j: Json, num: NumberSyntax)
    requires j.Obj? && j.fields != map[] && Storable(j, num) && At(s, p, Serialize(j, num))
    ensures ValueAt(s, p) == Ok(Parsed(j, p + |Serialize(j, num)|))
    decreases j, 2
  {
    var m := j.fields;
    var keys := SortedKeys(m.Keys);
    ObjectText(j, num);
    var rest := MembersRest(j, keys, 0, num);
    AtSplit(s, p, "{", rest);
    AtChar(s, p, "{", 0);
    AtChar(s, p + 1, rest, 0);
    ObjectStart(s, p);
    MembersBack(s, p + 1, j, keys, 0, num);
    SortedKeysSpec(m.Keys);
    PrefixWhole(m, keys);
  }

  /** The members written from the i-th key on read back into the map, the cursor after the '}'. */
  lemma {:induction false} MembersBack(s: string, pos: nat, j: Json, keys: seq<string>, i: nat, num: NumberSyntax)
    requires j.Obj? && Storable(j, num) && i < |keys| && forall x :: 0 <= x < |keys| ==> keys[x] in j.fields
    requires At(s, pos, MembersRest(j, keys, i, num))
    ensures MembersFrom(s, pos, Prefix(j.fields, keys, i)) ==
      Ok(Parsed(Obj(Prefix(j.fields, keys, |keys|)), pos + |MembersRest(j, keys, i, num)|))
    decreases j, 1, |keys| - i
  {
    var member := Member(j, keys[i], num);
    var tail := MembersAfter(j, keys, i, num);
    AtSplit(s, pos, member, tail);
    AtChar(s, pos + |member|, tail, 0);
    var k := keys[i];
    assert PlainText(k) && Storable(j.fields[k], num) && MemberOk(j.fields[k]);
    MemberBack(s, pos, pos + |member|, j, keys, i, num);
    if i + 1 < |keys| {
      var more := MembersRest(j, keys, i + 1, num);
      AtSplit(s, pos + |member|, ",", more);
      MembersBack(s, pos + |member| + 1, j, keys, i + 1, num);
      assert |MembersRest(j, keys, i, num)| == |member| + 1 + |more|;
    } else {
      assert |MembersRest(j, keys, i, num)| == |member| + 1;
    }
  }

  /** Reading the members of all the keys of m, one by one, gives back m. */
  lemma {:induction false} PrefixWhole(m: map<string, Json>, keys: seq<string>)
    requires (forall x :: 0 <= x < |keys| ==> keys[x] in m) && forall k :: k in m ==> k in keys
    ensures Prefix(m, keys, |keys|) == m
  {
    PrefixAll(m, keys, |keys|);
    assert keys[..|keys|] == keys;
  }

  /**
   * A member written at start and followed by ',' or, for the last, '}' at
   * end: the object loop goes on after the ',' or stops after the '}'.
   */
  lemma {:induction false} MemberBack(s: string, start: nat, end: nat, j: Json, keys: seq<string>, i: nat, num: NumberSyntax)
    requires j.Obj? && NoNulls(j) && i < |keys| && forall x :: 0 <= x < |keys| ==> keys[x] in j.fields
    requires PlainText(keys[i]) && Storable(j.fields[keys[i]], num) && MemberOk(j.fields[keys[i]])
    requires At(s, start, Member(j, keys[i], num)) && end == start + |Member(j, keys[i], num)| < |s|
    requires s[end] == (if i + 1 == |keys| then '}' else ',')
    ensures i + 1 == |keys| ==>
      MembersFrom(s, start, Prefix(j.fields, keys, i)) == Ok(Parsed(Obj(Prefix(j.fields, keys, i + 1)), end + 1))
    ensures i + 1 < |keys| ==>
      MembersFrom(s, start, Prefix(j.fields, keys, i)) == MembersFrom(s, end + 1, Prefix(j.fields, keys, i + 1))
    decreases j.fields[keys[i]], 4
  {
    var m := j.fields;
    var k := keys[i];
    var v := m[k];
    var q := start + |k| + 3;
    MemberParts(s, start, k, Serialize(v, num));
    ValueBack(s, q, v, num);
    MemberRead(s, start, Prefix(m, keys, i), k, q, v, q + |Serialize(v, num)|);
  }

  /** The elements of an array from the i-th on, as written, and the ']' that closes them. */
  function ElementsRest(j: Json, i: nat, num: NumberSyntax): string
    requires j.Arr? && NoNulls(j) && i < |j.elems|
    decreases |j.elems| - i
  {
    Serialize(j.elems[i], num) + ElementsAfter(j, i, num)
  }

  /** What follows the i-th element: ']' after the last, else ',' and the remaining elements. */
  function ElementsAfter(j: Json, i: nat, num: NumberSyntax): string
    requires j.Arr? && NoNulls(j) && i < |j.elems|
    decreases |j.elems| - i, 0
  {
    if i + 1 == |j.elems| then "]" else "," + ElementsRest(j, i + 1, num)
  }

  /** The first i elements and what follows them make the whole element list and its ']'. */
  lemma {:induction false} ElementsSplit(j: Json, i: nat, num: NumberSyntax)
    requires j.Arr? && NoNulls(j) && 0 < i <= |j.elems|
    ensures Elements(j, |j.elems|, num) + "]" ==
      Elements(j, i, num) + (if i == |j.elems| then "]" else "," + ElementsRest(j, i, num))
    decreases |j.elems| - i
  {
    if i < |j.elems| {
      ElementsSplit(j, i + 1, num);
      var tail := ElementsAfter(j, i, num);
      var e := Serialize(j.elems[i], num);
      assert Elements(j, i + 1, num) == Elements(j, i, num) + ("," + e);
      assert Elements(j, i + 1, num) + tail == Elements(j, i, num) + ("," + (e + tail));
    }
  }

  lemma {:induction false} ArrayBack(s: string, p: nat, j: Json, num: NumberSyntax)
    requires j.Arr? && Storable(j, num) && At(s, p, Serialize(j, num))
    ensures ValueAt(s, p) == Ok(Parsed(j, p + |Serialize(j, num)|))
    decreases j, 2
  {
    var es := j.elems;
    AtChar(s, p, Serialize(j, num), 0);
    if |es| == 0 {
      AtChar(s, p, Serialize(j, num), 1);
    } else {
      ElementsSplit(j, 1, num);
      var rest := ElementsRest(j, 0, num);
      assert Elements(j, 1, num) == Serialize(es[0], num);
      assert rest == Serialize(es[0], num) + ElementsAfter(j, 0, num);
      assert Elements(j, |es|, num) + "]" == rest;
      assert Serialize(j, num) == "[" + rest;
      AtSplit(s, p, "[", rest);
      assert es[..0] == [];
      ElementsBack(s, p + 1, j, 0, num);
    }
  }

  /** The elements written from the i-th on read back into the array, the cursor after the ']'. */
  lemma {:induction false} ElementsBack(s: string, pos: nat, j: Json, i: nat, num: NumberSyntax)
    requires j.Arr? && Storable(j, num) && i < |j.elems| && At(s, pos, ElementsRest(j, i, num))
    ensures ItemsFrom(s, pos, j.elems[..i]) == Ok(Parsed(j, pos + |ElementsRest(j, i, num)|))
    decreases j, 1, |j.elems| - i
  {
    var e := Serialize(j.elems[i], num);
    var tail := ElementsAfter(j, i, num);
    AtSplit(s, pos, e, tail);
    AtChar(s, pos + |e|, tail, 0);
    assert Storable(j.elems[i], num) && ElementOk(j.elems[i], num);
    ElementBack(s, pos, pos + |e|, j.elems, i, num);
    if i + 1 < |j.elems| {
      var more := ElementsRest(j, i + 1, num);
      AtSplit(s, pos + |e|, ",", more);
      ElementsBack(s, pos + |e| + 1, j, i + 1, num);
      assert |ElementsRest(j, i, num)| == |e| + 1 + |more|;
    } else {
      assert |ElementsRest(j, i, num)| == |e| + 1;
      assert j == Arr(j.elems);
    }
  }

  /**
   * An element written at start and followed by ',' or, for the last, ']' at
   * end: the array loop goes on after the ',' or stops after the ']'.
   */
  lemma {:induction false} ElementBack(s: string, start: nat, end: nat, es: seq<Json>, i: nat, num: NumberSyntax)
    requires i < |es| && Storable(es[i], num) && ElementOk(es[i], num) && At(s, start, Serialize(es[i], num))
    requires end == start + |Serialize(es[i], num)| < |s|
    requires s[end] == (if i + 1 == |es| then ']' else ',')
    ensures i + 1 == |es| ==> ItemsFrom(s, start, es[..i]) == Ok(Parsed(Arr(es), end + 1))
    ensures i + 1 < |es| ==> ItemsFrom(s, start, es[..i]) == ItemsFrom(s, end + 1, es[..i + 1])
    decreases es[i], 4
  {
    var e := es[i];
    ElementOpens(e, num);
    AtChar(s, start, Serialize(e, num), 0);
    ValueBack(s, start, e, num);
    ItemRead(s, start, es[..i], e, end);
    SliceSnoc(es, i);
  }

  /** An empty object is written "{}" and reads back as an empty object. */
  lemma {:induction false} EmptyRoundTrip(num: NumberSyntax)
    ensures Parse(Serialize(Obj(map[]), num)) == Ok(Obj(map[]))
  {
    var m: map<string, Json> := map[];
    assert m.Keys == {};
    assert SortedKeys(m.Keys) == [];
    var s := Serialize(Obj(m), num);
    assert s == "{}";
    TrimKeeps(s);
  }

  /** The whole text of a non-empty storable object reads back as that object. */
  lemma {:induction false} ObjectRoundTrip(j: Json, num: NumberSyntax)
    requires j.Obj? && j.fields != map[] && Storable(j, num)
    ensures Parse(Serialize(j, num)) == Ok(j)
  {
    var s := Serialize(j, num);
    ObjectText(j, num);
    assert s[0] == '{';
    assert s[|s| - 1] == '}' by {
      MembersLast(j, SortedKeys(j.fields.Keys), 0, num);
    }
    TrimKeeps(s);
    ValueBack(s, 0, j, num);
  }

  /** The members written from any key on end with the '}'. */
  lemma {:induction false} MembersLast(j: Json, keys: seq<string>, i: nat, num: NumberSyntax)
    requires j.Obj? && NoNulls(j) && i < |keys| && forall x :: 0 <= x < |keys| ==> keys[x] in j.fields
    ensures var r := MembersRest(j, keys, i, num); |r| > 0 && r[|r| - 1] == '}'
    decreases |keys| - i
  {
    if i + 1 < |keys| {
      MembersLast(j, keys, i + 1, num);
    }
  }

  /**
   * Saving an outcome file and loading it again gives back the same object,
   * when every key and value is storable (an empty top-level object included).
   */
  lemma {:induction false} RoundTrip(m: map<string, Json>, num: NumberSyntax)
    requires Storable(Obj(m), num)
    ensures Parse(Serialize(Obj(m), num)) == Ok(Obj(m))
  {
    if m == map[] {
      EmptyRoundTrip(num);
    } else {
      ObjectRoundTrip(Obj(m), num);
    }
  }
}
