/**
 * JsonResultFactory: the cursor-based reader that rebuilds a JSON tree from
 * the text of an outcome file. The functions state what one call of each
 * reader routine yields from a position; the class JsonResultFactory holds
 * the string and the cursor and is proved against them.
 */
module JsonParser {
  import opened Wrappers
  import opened JavaStrings
  import opened Json

  /**
   * Why a parse yields no tree: the reader returned null, or it indexed past
   * the end of the string (a StringIndexOutOfBoundsException in Java).
   */
  datatype Failure = NullResult | OutOfBounds

  /** A tree read from the text and the cursor position after it. */
  datatype Parsed = Parsed(value: Json, pos: nat)

  /**
   * The quote at q closes the string opened by the quote at open: it comes
   * after the opening quote and is not preceded by a backslash inside the string.
   */
  predicate ClosesAt(s: string, open: nat, q: nat)
  {
    open < q < |s| && s[q] == '"' && (q == open + 1 || s[q - 1] != '\\')
  }

  /** The first quote at or after i that closes the string opened at open. */
  function CloseQuote(s: string, open: nat, i: nat): (r: Option<nat>)
    requires open < i
    ensures r.Some? ==> i <= r.value && ClosesAt(s, open, r.value)
    decreases |s| - i
  {
    if i >= |s| then None
    else if ClosesAt(s, open, i) then Some(i)
    else CloseQuote(s, open, i + 1)
  }

  /** CloseQuote finds the first closing quote: none comes before it, and None means there is none at all. */
  lemma {:induction false} CloseQuoteFirst(s: string, open: nat, i: nat)
    requires open < i
    ensures CloseQuote(s, open, i).Some? ==> forall q :: i <= q < CloseQuote(s, open, i).value ==> !ClosesAt(s, open, q)
    ensures CloseQuote(s, open, i).None? ==> forall q :: i <= q < |s| ==> !ClosesAt(s, open, q)
    decreases |s| - i
  {
    if i < |s| && !ClosesAt(s, open, i) {
      CloseQuoteFirst(s, open, i + 1);
    }
  }

  /**
   * getString at p: the characters between the opening quote at p and the
   * first unescaped quote, taken verbatim, and the position after the
   * closing quote; None when p holds no quote or the string never closes.
   */
  function QuotedText(s: string, p: nat): (r: Option<(string, nat)>)
    requires p < |s|
    ensures r.Some? ==> s[p] == '"' && p + 2 <= r.value.1 <= |s|
    ensures r.Some? ==> r.value.0 == s[p + 1..r.value.1 - 1] && ClosesAt(s, p, r.value.1 - 1)
  {
    if s[p] != '"' then None
    else match CloseQuote(s, p, p + 1)
      case None => None
      case Some(q) => Some((s[p + 1..q], q + 1))
  }

  /** One of the characters that end an unquoted value. */
  predicate IsDelimiter(c: char)
  {
    c == ',' || c == '}' || c == ']'
  }

  /** The first delimiter at or after i. */
  function NextDelimiter(s: string, i: nat): (r: Option<nat>)
    ensures r.Some? ==> i <= r.value < |s| && IsDelimiter(s[r.value])
    decreases |s| - i
  {
    if i >= |s| then None
    else if IsDelimiter(s[i]) then Some(i)
    else NextDelimiter(s, i + 1)
  }

  /** NextDelimiter finds the first delimiter: none comes before it, and None means there is none at all. */
  lemma {:induction false} NextDelimiterFirst(s: string, i: nat)
    ensures NextDelimiter(s, i).Some? ==> forall q :: i <= q < NextDelimiter(s, i).value ==> !IsDelimiter(s[q])
    ensures NextDelimiter(s, i).None? ==> forall q :: i <= q < |s| ==> !IsDelimiter(s[q])
    decreases |s| - i
  {
    if i < |s| && !IsDelimiter(s[i]) {
      NextDelimiterFirst(s, i + 1);
    }
  }

  /**
   * getRaw at p: the characters up to the next ',', '}' or ']', with the
   * cursor left on that delimiter; None when no delimiter follows.
   */
  function RawText(s: string, p: nat): (r: Option<(string, nat)>)
    ensures r.Some? ==> p <= r.value.1 < |s| && IsDelimiter(s[r.value.1])
    ensures r.Some? ==> r.value.0 == s[p..r.value.1]
  {
    match NextDelimiter(s, p)
    case None => None
    case Some(d) => Some((s[p..d], d))
  }

  /**
   * builder at p: an array, an object, a quoted value or an unquoted value,
   * by the character at p. "{}" is read as an empty object but moves the
   * cursor three places, past the character that follows it.
   */
  function ValueAt(s: string, p: nat): (r: Result<Parsed, Failure>)
    requires p <= |s|
    ensures r.Ok? ==> p <= r.value.pos <= |s| + 1
    ensures r.Ok? && p < |s| && (s[p] == '"' || s[p] == '{' || s[p] == '[') ==> p < r.value.pos
    decreases |s| - p, 1
  {
    if |s| == 0 then Err(NullResult)
    else if p == |s| then Err(OutOfBounds)
    else if s[p] == '[' then ItemsFrom(s, p + 1, [])
    else if s[p] == '{' then
      if p + 1 == |s| then Err(OutOfBounds)
      else if s[p + 1] == '}' then Ok(Parsed(Obj(map[]), p + 3))
      else MembersFrom(s, p + 1, map[])
    else if s[p] == '"' then
      match QuotedText(s, p)
      case None => Err(NullResult)
      case Some((text, q)) => Ok(Parsed(MakeValue(text), q))
    else
      match RawText(s, p)
      case None => Err(NullResult)
      case Some((text, q)) => Ok(Parsed(MakeValue(text), q))
  }

  /**
   * The array loop of builder from p, with elems read so far: elements are
   * read while the next character is '"' or '{'; a ',' after an element is
   * skipped and ']' ends the array.
   */
  function ItemsFrom(s: string, p: nat, elems: seq<Json>): (r: Result<Parsed, Failure>)
    requires p <= |s|
    ensures r.Ok? ==> p < r.value.pos <= |s| + 1 && r.value.value.Arr?
    decreases |s| - p, 2
  {
    if p < |s| && (s[p] == '"' || s[p] == '{') then
      match ValueAt(s, p)
      case Err(e) => Err(e)
      case Ok(Parsed(v, q)) =>
        if q >= |s| then Err(NullResult)
        else if s[q] == ']' then Ok(Parsed(Arr(elems + [v]), q + 1))
        else if s[q] == ',' then ItemsFrom(s, q + 1, elems + [v])
        else ItemsFrom(s, q, elems + [v])
    else if p == |s| then Err(OutOfBounds)
    else if s[p] != ']' then Err(NullResult)
    else Ok(Parsed(Arr(elems), p + 1))
  }

  /**
   * The object loop of builder from p, with the members read so far: a
   * quoted key directly followed by ':' and a value.
   */
  function MembersFrom(s: string, p: nat, fields: map<string, Json>): (r: Result<Parsed, Failure>)
    requires p <= |s|
    ensures r.Ok? ==> p < r.value.pos <= |s| + 1 && r.value.value.Obj?
    decreases |s| - p, 2
  {
    if p == |s| then Err(OutOfBounds)
    else match QuotedText(s, p)
      case None => Err(NullResult)
      case Some((key, q)) =>
        if q >= |s| || s[q] != ':' then Err(NullResult)
        else MemberValue(s, q + 1, key, fields)
  }

  /**
   * The rest of one member from the value at p: the value is stored under key,
   * replacing an earlier member with that key; a ',' after it is skipped and
   * '}' ends the object.
   */
  function MemberValue(s: string, p: nat, key: string, fields: map<string, Json>): (r: Result<Parsed, Failure>)
    requires p <= |s|
    ensures r.Ok? ==> p < r.value.pos <= |s| + 1 && r.value.value.Obj?
    decreases |s| - p + 1, 0
  {
    match ValueAt(s, p)
    case Err(e) => Err(e)
    case Ok(Parsed(v, r)) =>
      if r >= |s| then Err(NullResult)
      else if s[r] == '}' then Ok(Parsed(Obj(fields[key := v]), r + 1))
      else if s[r] == ',' then MembersFrom(s, r + 1, fields[key := v])
      else MembersFrom(s, r, fields[key := v])
  }

  lemma {:induction false} ObjectStart(s: string, p: nat)
    requires p + 1 < |s| && s[p] == '{' && s[p + 1] != '}'
    ensures ValueAt(s, p) == MembersFrom(s, p + 1, map[])
  {
  }

  lemma {:induction false} KeyFails(s: string, p: nat, fields: map<string, Json>)
    requires p < |s|
    requires QuotedText(s, p).None? || QuotedText(s, p).value.1 >= |s| || s[QuotedText(s, p).value.1] != ':'
    ensures MembersFrom(s, p, fields) == Err(NullResult)
  {
  }

  lemma {:induction false} MemberFails(s: string, p: nat, fields: map<string, Json>, key: string, q: nat)
    requires p < |s| && QuotedText(s, p) == Some((key, q - 1)) && q - 1 < |s| && s[q - 1] == ':'
    requires ValueAt(s, q).Err?
    ensures MembersFrom(s, p, fields) == Err(ValueAt(s, q).error)
  {
  }

  lemma {:induction false} MemberRead(s: string, p: nat, fields: map<string, Json>, key: string, q: nat, v: Json, r: nat)
    requires p < |s| && QuotedText(s, p) == Some((key, q - 1)) && q - 1 < |s| && s[q - 1] == ':'
    requires ValueAt(s, q) == Ok(Parsed(v, r))
    ensures r >= |s| ==> MembersFrom(s, p, fields) == Err(NullResult)
    ensures r < |s| && s[r] == '}' ==> MembersFrom(s, p, fields) == Ok(Parsed(Obj(fields[key := v]), r + 1))
    ensures r < |s| && s[r] == ',' ==> MembersFrom(s, p, fields) == MembersFrom(s, r + 1, fields[key := v])
    ensures r < |s| && s[r] != ',' && s[r] != '}' ==> MembersFrom(s, p, fields) == MembersFrom(s, r, fields[key := v])
  {
    assert MembersFrom(s, p, fields) == MemberValue(s, q, key, fields);
  }

  lemma {:induction false} ItemRead(s: string, p: nat, elems: seq<Json>, v: Json, r: nat)
    requires p < |s| && (s[p] == '"' || s[p] == '{') && ValueAt(s, p) == Ok(Parsed(v, r))
    ensures r >= |s| ==> ItemsFrom(s, p, elems) == Err(NullResult)
    ensures r < |s| && s[r] == ']' ==> ItemsFrom(s, p, elems) == Ok(Parsed(Arr(elems + [v]), r + 1))
    ensures r < |s| && s[r] == ',' ==> ItemsFrom(s, p, elems) == ItemsFrom(s, r + 1, elems + [v])
    ensures r < |s| && s[r] != ',' && s[r] != ']' ==> ItemsFrom(s, p, elems) == ItemsFrom(s, r, elems + [v])
  {
  }

  /** The tree of a parse, without its end position. */
  function Tree(r: Result<Parsed, Failure>): (t: Result<Json, Failure>)
    ensures t.Ok? <==> r.Ok?
    ensures t.Ok? ==> t.value == r.value.value
    ensures t.Err? ==> t.error == r.error
  {
    match r
    case Ok(pr) => Ok(pr.value)
    case Err(e) => Err(e)
  }

  /** build: the tree read from the trimmed text from its first character; any text after it is ignored. */
  function Parse(input: string): (r: Result<Json, Failure>)
  {
    Tree(ValueAt(Trim(input), 0))
  }

  /** Text that is empty or all whitespace after trimming reads as null. */
  lemma {:induction false} ParseBlank(input: string)
    requires forall i :: 0 <= i < |input| ==> IsTrimmed(input[i])
    ensures Parse(input) == Err(NullResult)
  {
    TrimSpec(input);
  }

  /** A text that is not an array, object or quoted string and holds no delimiter never reads. */
  lemma {:induction false} ParseBareScalar(input: string)
    requires |Trim(input)| > 0 && Trim(input)[0] != '[' && Trim(input)[0] != '{' && Trim(input)[0] != '"'
    requires forall i :: 0 <= i < |Trim(input)| ==> !IsDelimiter(Trim(input)[i])
    ensures Parse(input) == Err(NullResult)
  {
    assert RawText(Trim(input), 0).None?;
  }

  /** An array element must begin with '"' or '{': any other character but ']' where an element may start fails the array. */
  lemma {:induction false} ArrayElementMustOpen(s: string, p: nat, elems: seq<Json>)
    requires p < |s| && s[p] != '"' && s[p] != '{' && s[p] != ']'
    ensures ItemsFrom(s, p, elems) == Err(NullResult)
    ensures p > 0 && s[p - 1] == '[' ==> ValueAt(s, p - 1) == Err(NullResult)
  {
  }

  /** A member must begin with '"' right where a key may start: whitespace or any other character fails the object. */
  lemma {:induction false} KeyMustOpen(s: string, p: nat, fields: map<string, Json>)
    requires p < |s| && s[p] != '"'
    ensures MembersFrom(s, p, fields) == Err(NullResult)
    ensures p > 0 && s[p - 1] == '{' && s[p] != '}' ==> ValueAt(s, p - 1) == Err(NullResult)
  {
    assert QuotedText(s, p).None?;
  }

  /** "{}" reads as an empty object and moves the cursor past the character after it. */
  lemma {:induction false} EmptyObjectSkipsNext(s: string, p: nat)
    requires p + 1 < |s| && s[p] == '{' && s[p + 1] == '}'
    ensures ValueAt(s, p) == Ok(Parsed(Obj(map[]), p + 3))
  {
  }

  /** So an empty object as the last element of an array or the last value of an object fails. */
  lemma {:induction false} EmptyObjectLastFails()
    ensures Parse("[{}]") == Err(NullResult)
    ensures Parse("{\"a\":{}}") == Err(NullResult)
    ensures Parse("{}") == Ok(Obj(map[]))
  {
    EmptyObjectSkipsNext("[{}]", 1);
    EmptyObjectSkipsNext("{\"a\":{}}", 5);
  }

  /** Reading past the end fails: an unclosed object, and a key with no value. */
  lemma {:induction false} TruncatedFails()
    ensures Parse("{") == Err(OutOfBounds)
    ensures Parse("{\"a\":") == Err(OutOfBounds)
  {
  }

  /**
   * A later member with the same key replaces the earlier one: two members
   * "k":v1 and "k":v2, the second closing the object, leave only v2 under k.
   */
  lemma {:induction false} DuplicateKeyReplaces(s: string, p: nat, fields: map<string, Json>, k: string,
                             q1: nat, v1: Json, r1: nat, q2: nat, v2: Json, r2: nat)
    requires p < |s| && QuotedText(s, p) == Some((k, q1 - 1)) && q1 - 1 < |s| && s[q1 - 1] == ':'
    requires ValueAt(s, q1) == Ok(Parsed(v1, r1)) && r1 < |s| && s[r1] == ','
    requires r1 + 1 < |s| && QuotedText(s, r1 + 1) == Some((k, q2 - 1)) && q2 - 1 < |s| && s[q2 - 1] == ':'
    requires ValueAt(s, q2) == Ok(Parsed(v2, r2)) && r2 < |s| && s[r2] == '}'
    ensures MembersFrom(s, p, fields) == Ok(Parsed(Obj(fields[k := v2]), r2 + 1))
  {
    MemberRead(s, p, fields, k, q1, v1, r1);
    MemberRead(s, r1 + 1, fields[k := v1], k, q2, v2, r2);
    assert fields[k := v1][k := v2] == fields[k := v2];
  }

  /** The reader: the trimmed text and the cursor into it. */
  class JsonResultFactory {
    var str: string
    var stringPosition: nat

    constructor ()
      ensures str == "" && stringPosition == 0
    {
      str := "";
      stringPosition := 0;
    }

    /** getString: reads the quoted text at the cursor and moves past its closing quote. */
    method GetString() returns (r: Option<string>)
      requires stringPosition < |str|
      modifies this
      ensures str == old(str)
      ensures QuotedText(str, old(stringPosition)).Some? ==>
        r == Some(QuotedText(str, old(stringPosition)).value.0) &&
        stringPosition == QuotedText(str, old(stringPosition)).value.1
      ensures QuotedText(str, old(stringPosition)).None? ==> r.None?
    {
      if str[stringPosition] != '"' {
        return None;
      }
      stringPosition := stringPosition + 1;
      var start := stringPosition;
      var ignoreNext := false;
      while stringPosition < |str|
        invariant str == old(str)
        invariant start <= stringPosition <= |str| && start == old(stringPosition) + 1
        invariant ignoreNext <==> stringPosition > start && str[stringPosition - 1] == '\\'
        invariant CloseQuote(str, old(stringPosition), start) == CloseQuote(str, old(stringPosition), stringPosition)
        decreases |str| - stringPosition
      {
        if str[stringPosition] == '"' && !ignoreNext {
          r := Some(str[start..stringPosition]);
          stringPosition := stringPosition + 1;
          return;
        }
        ignoreNext := str[stringPosition] == '\\';
        stringPosition := stringPosition + 1;
      }
      return None;
    }

    /** getRaw: reads up to the next delimiter and leaves the cursor on it. */
    method GetRaw() returns (r: Option<string>)
      requires stringPosition <= |str|
      modifies this
      ensures str == old(str)
      ensures RawText(str, old(stringPosition)).Some? ==>
        r == Some(RawText(str, old(stringPosition)).value.0) &&
        stringPosition == RawText(str, old(stringPosition)).value.1
      ensures RawText(str, old(stringPosition)).None? ==> r.None? && stringPosition == |str|
    {
      var start := stringPosition;
      while stringPosition < |str|
        invariant str == old(str)
        invariant start <= stringPosition <= |str|
        invariant NextDelimiter(str, start) == NextDelimiter(str, stringPosition)
        decreases |str| - stringPosition
      {
        if str[stringPosition] == ',' || str[stringPosition] == '}' || str[stringPosition] == ']' {
          return Some(str[start..stringPosition]);
        }
        stringPosition := stringPosition + 1;
      }
      return None;
    }

    /** build: trims the input, restarts the cursor and reads one element. */
    method Build(input: string) returns (r: Result<Json, Failure>)
      modifies this
      ensures r == Parse(input)
      ensures str == Trim(input)
    {
      str := Trim(input);
      stringPosition := 0;
      r := Builder();
    }

    /** builder: reads the element at the cursor and leaves the cursor after it. */
    method Builder() returns (r: Result<Json, Failure>)
      requires stringPosition <= |str|
      modifies this
      ensures str == old(str)
      ensures r == Tree(ValueAt(str, old(stringPosition)))
      ensures r.Ok? ==> stringPosition == ValueAt(str, old(stringPosition)).value.pos
      decreases |str| - stringPosition, 1
    {
      if |str| == 0 {
        return Err(NullResult);
      }
      if stringPosition == |str| {
        // charAt past the end
        return Err(OutOfBounds);
      }
      if str[stringPosition] == '[' {
        r := BuildArray();
        return;
      }
      if str[stringPosition] == '{' {
        r := BuildObject();
        return;
      }
      if str[stringPosition] == '"' {
        var s := GetString();
        if s.None? {
          return Err(NullResult);
        }
        return Ok(MakeValue(s.value));
      }
      var s := GetRaw();
      if s.None? {
        return Err(NullResult);
      }
      return Ok(MakeValue(s.value));
    }

    /** The '[' branch of builder: elements while the next character is '"' or '{', then ']'. */
    method BuildArray() returns (r: Result<Json, Failure>)
      requires stringPosition < |str| && str[stringPosition] == '['
      modifies this
      ensures str == old(str)
      ensures r == Tree(ValueAt(str, old(stringPosition)))
      ensures r.Ok? ==> stringPosition == ValueAt(str, old(stringPosition)).value.pos
      decreases |str| - stringPosition, 0
    {
      stringPosition := stringPosition + 1;
      var cs: seq<Json> := [];
      while stringPosition < |str| && (str[stringPosition] == '"' || str[stringPosition] == '{')
        invariant old(stringPosition) < stringPosition <= |str| && str == old(str)
        invariant ItemsFrom(str, stringPosition, cs) == ValueAt(str, old(stringPosition))
        decreases |str| - stringPosition
      {
        var obj := Builder();
        if obj.Err? {
          return obj;
        }
        cs := cs + [obj.value];
        if stringPosition >= |str| {
          return Err(NullResult);
        }
        if str[stringPosition] == ']' {
          break;
        }
        if str[stringPosition] == ',' {
          stringPosition := stringPosition + 1;
        }
      }
      if stringPosition == |str| {
        // charAt past the end
        return Err(OutOfBounds);
      }
      if str[stringPosition] != ']' {
        return Err(NullResult);
      }
      stringPosition := stringPosition + 1;
      return Ok(Arr(cs));
    }

    /** The '{' branch of builder: "{}", or members "key":value up to '}'. */
    method BuildObject() returns (r: Result<Json, Failure>)
      requires stringPosition < |str| && str[stringPosition] == '{'
      modifies this
      ensures str == old(str)
      ensures r == Tree(ValueAt(str, old(stringPosition)))
      ensures r.Ok? ==> stringPosition == ValueAt(str, old(stringPosition)).value.pos
      decreases |str| - stringPosition, 0
    {
      stringPosition := stringPosition + 1;
      var co: map<string, Json> := map[];
      if stringPosition == |str| {
        // charAt past the end
        return Err(OutOfBounds);
      }
      if str[stringPosition] == '}' {
        stringPosition := stringPosition + 2;
        return Ok(Obj(co));
      }
      ObjectStart(str, old(stringPosition));
      r := ReadMembers();
    }

    /** The member loop of builder's '{' branch, from the first key. */
    method ReadMembers() returns (r: Result<Json, Failure>)
      requires stringPosition < |str|
      modifies this
      ensures str == old(str)
      ensures r == Tree(MembersFrom(str, old(stringPosition), map[]))
      ensures r.Ok? ==> stringPosition == MembersFrom(str, old(stringPosition), map[]).value.pos
      decreases |str| - stringPosition, 0
    {
      var co: map<string, Json> := map[];
      ghost var s := str;
      while stringPosition < |str|
        invariant old(stringPosition) <= stringPosition <= |str| && str == s
        invariant MembersFrom(s, stringPosition, co) == MembersFrom(s, old(stringPosition), map[])
        decreases |str| - stringPosition
      {
        ghost var p := stringPosition;
        var key := GetString();
        if key.None? || stringPosition >= |str| || str[stringPosition] != ':' {
          KeyFails(s, p, co);
          return Err(NullResult);
        }
        stringPosition := stringPosition + 1;
        ghost var q := stringPosition;
        var obj := Builder();
        if obj.Err? {
          MemberFails(s, p, co, key.value, q);
          return obj;
        }
        MemberRead(s, p, co, key.value, q, obj.value, stringPosition);
        co := co[key.value := obj.value];
        if stringPosition >= |str| {
          return Err(NullResult);
        }
        if str[stringPosition] == '}' {
          // the break, the closing-brace test and the step past it
          stringPosition := stringPosition + 1;
          return Ok(Obj(co));
        }
        if str[stringPosition] == ',' {
          stringPosition := stringPosition + 1;
        }
      }
      // the loop ends only at the end of the string, where charAt throws
      return Err(OutOfBounds);
    }
  }
}
