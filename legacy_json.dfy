/**
 * The older copy's JsonResultFactory. Its routines are proved against the
 * same reading functions as the main reader's, so build yields Parse(input)
 * here too: the two readers agree on every input.
 */
module LegacyJson {
  import opened Wrappers
  import opened JavaStrings
  import opened Json
  import opened JsonParser

  /** The older copy's reader: the trimmed text and the cursor into it. */
  class LegacyJsonResultFactory {
    var str: string
    var strpos: nat

    constructor ()
      ensures str == "" && strpos == 0
    {
      str := "";
      strpos := 0;
    }

    /**
     * getString: reads the quoted text at the cursor and moves past its closing
     * quote. The escape flag is cleared and then set again on a backslash, which
     * leaves it as the main copy's single assignment does: both read QuotedText.
     */
    method GetString() returns (r: Option<string>)
      requires strpos < |str|
      modifies this
      ensures str == old(str)
      ensures QuotedText(str, old(strpos)).Some? ==>
        r == Some(QuotedText(str, old(strpos)).value.0) &&
        strpos == QuotedText(str, old(strpos)).value.1
      ensures QuotedText(str, old(strpos)).None? ==> r.None?
    {
      if str[strpos] != '"' {
        return None;
      }
      strpos := strpos + 1;
      var start := strpos;
      var ignoreNext := false;
      while strpos < |str|
        invariant str == old(str)
        invariant start <= strpos <= |str| && start == old(strpos) + 1
        invariant ignoreNext <==> strpos > start && str[strpos - 1] == '\\'
        invariant CloseQuote(str, old(strpos), start) == CloseQuote(str, old(strpos), strpos)
        decreases |str| - strpos
      {
        if str[strpos] == '"' && !ignoreNext {
          r := Some(str[start..strpos]);
          strpos := strpos + 1;
          return;
        }
        ignoreNext := false;
        if str[strpos] == '\\' {
          ignoreNext := true;
        }
        strpos := strpos + 1;
      }
      return None;
    }

    /** getRaw: reads up to the next delimiter and leaves the cursor on it. */
    method GetRaw() returns (r: Option<string>)
      requires strpos <= |str|
      modifies this
      ensures str == old(str)
      ensures RawText(str, old(strpos)).Some? ==>
        r == Some(RawText(str, old(strpos)).value.0) &&
        strpos == RawText(str, old(strpos)).value.1
      ensures RawText(str, old(strpos)).None? ==> r.None? && strpos == |str|
    {
      var start := strpos;
      while strpos < |str|
        invariant str == old(str)
        invariant start <= strpos <= |str|
        invariant NextDelimiter(str, start) == NextDelimiter(str, strpos)
        decreases |str| - strpos
      {
        if str[strpos] == ',' || str[strpos] == '}' || str[strpos] == ']' {
          return Some(str[start..strpos]);
        }
        strpos := strpos + 1;
      }
      return None;
    }

    /** build: trims the input, restarts the cursor and reads one element. */
    method Build(input: string) returns (r: Result<Json, Failure>)
      modifies this
      ensures r == Parse(input)
      ensures str == Trim(input)
    {
      str := Trim(input);
      strpos := 0;
      r := Builder();
    }

    /** builder: reads the element at the cursor and leaves the cursor after it. */
    method Builder() returns (r: Result<Json, Failure>)
      requires strpos <= |str|
      modifies this
      ensures str == old(str)
      ensures r == Tree(ValueAt(str, old(strpos)))
      ensures r.Ok? ==> strpos == ValueAt(str, old(strpos)).value.pos
      decreases |str| - strpos, 1
    {
      if |str| == 0 {
        return Err(NullResult);
      }
      if strpos == |str| {
        // charAt past the end
        return Err(OutOfBounds);
      }
      if str[strpos] == '[' {
        r := BuildArray();
        return;
      }
      if str[strpos] == '{' {
        r := BuildObject();
        return;
      }
      if str[strpos] == '"' {
        var s := GetString();
        if s.None? {
          return Err(NullResult);
        }
        return Ok(MakeValue(s.value));
      }
      var s := GetRaw();
      if s.None? {
        return Err(NullResult);
      }
      return Ok(MakeValue(s.value));
    }

    /** The '[' branch of builder: elements while the next character is '"' or '{', then ']'. */
    method BuildArray() returns (r: Result<Json, Failure>)
      requires strpos < |str| && str[strpos] == '['
      modifies this
      ensures str == old(str)
      ensures r == Tree(ValueAt(str, old(strpos)))
      ensures r.Ok? ==> strpos == ValueAt(str, old(strpos)).value.pos
      decreases |str| - strpos, 0
    {
      strpos := strpos + 1;
      var cs: seq<Json> := [];
      while strpos < |str| && (str[strpos] == '"' || str[strpos] == '{')
        invariant old(strpos) < strpos <= |str| && str == old(str)
        invariant ItemsFrom(str, strpos, cs) == ValueAt(str, old(strpos))
        decreases |str| - strpos
      {
        var obj := Builder();
        if obj.Err? {
          return obj;
        }
        cs := cs + [obj.value];
        if strpos >= |str| {
          return Err(NullResult);
        }
        if str[strpos] == ']' {
          break;
        }
        if str[strpos] == ',' {
          strpos := strpos + 1;
        }
      }
      if strpos == |str| {
        // charAt past the end
        return Err(OutOfBounds);
      }
      if str[strpos] != ']' {
        return Err(NullResult);
      }
      strpos := strpos + 1;
      return Ok(Arr(cs));
    }

    /** The '{' branch of builder: "{}", or members "key":value up to '}'. */
    method BuildObject() returns (r: Result<Json, Failure>)
      requires strpos < |str| && str[strpos] == '{'
      modifies this
      ensures str == old(str)
      ensures r == Tree(ValueAt(str, old(strpos)))
      ensures r.Ok? ==> strpos == ValueAt(str, old(strpos)).value.pos
      decreases |str| - strpos, 0
    {
      strpos := strpos + 1;
      var co: map<string, Json> := map[];
      if strpos == |str| {
        // charAt past the end
        return Err(OutOfBounds);
      }
      if str[strpos] == '}' {
        strpos := strpos + 2;
        return Ok(Obj(co));
      }
      ObjectStart(str, old(strpos));
      r := ReadMembers();
    }

    /** The member loop of builder's '{' branch, from the first key. */
    method ReadMembers() returns (r: Result<Json, Failure>)
      requires strpos < |str|
      modifies this
      ensures str == old(str)
      ensures r == Tree(MembersFrom(str, old(strpos), map[]))
      ensures r.Ok? ==> strpos == MembersFrom(str, old(strpos), map[]).value.pos
      decreases |str| - strpos, 0
    {
      var co: map<string, Json> := map[];
      ghost var s := str;
      while strpos < |str|
        invariant old(strpos) <= strpos <= |str| && str == s
        invariant MembersFrom(s, strpos, co) == MembersFrom(s, old(strpos), map[])
        decreases |str| - strpos
      {
        ghost var p := strpos;
        var key := GetString();
        if key.None? || strpos >= |str| || str[strpos] != ':' {
          KeyFails(s, p, co);
          return Err(NullResult);
        }
        strpos := strpos + 1;
        ghost var q := strpos;
        var obj := Builder();
        if obj.Err? {
          MemberFails(s, p, co, key.value, q);
          return obj;
        }
        MemberRead(s, p, co, key.value, q, obj.value, strpos);
        co := co[key.value := obj.value];
        if strpos >= |str| {
          return Err(NullResult);
        }
        if str[strpos] == '}' {
          // the break, the closing-brace test and the step past it
          strpos := strpos + 1;
          return Ok(Obj(co));
        }
        if str[strpos] == ',' {
          strpos := strpos + 1;
        }
      }
      // the loop ends only at the end of the string, where charAt throws
      return Err(OutOfBounds);
    }
  }
}
