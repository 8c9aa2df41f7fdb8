/**
 * The template reader: a buffered reader whose "line" ends at the first '>'
 * found outside double quotes, so that a word-processing XML template comes
 * out one tag (or tag plus text) at a time.
 */

module XmlTemplate {
  import opened Wrappers

  /** Characters that flip the in-quotes flag: the quote, and (through the switch's fall-through) a quoted '>'. */
  predicate Toggles(c: char)
  {
    c == '"' || c == '>'
  }

  /**
   * The in-quotes flag after reading s[i..j] from a fresh call (the flag starts
   * false on every call).
   */
  function Flag(s: string, i: nat, j: nat): bool
    requires i <= j <= |s|
    decreases j - i
  {
    if j == i then false
    else if Toggles(s[j - 1]) then !Flag(s, i, j - 1)
    else Flag(s, i, j - 1)
  }

  /** Position k holds a '>' that ends the line begun at i: one read outside quotes. */
  predicate Closes(s: string, i: nat, k: nat)
    requires i <= k < |s|
  {
    s[k] == '>' && !Flag(s, i, k)
  }

  /**
   * The character scan of one call from position j with the flag inQuotes:
   * the position just past the closing '>', or None at end of input.
   */
  function Scan(s: string, j: nat, inQuotes: bool): (e: Option<nat>)
    requires j <= |s|
    ensures e.Some? ==> j < e.value <= |s| && s[e.value - 1] == '>'
    decreases |s| - j
  {
    if j == |s| then None
    else if s[j] == '>' && !inQuotes then Some(j + 1)
    else Scan(s, j + 1, if Toggles(s[j]) then !inQuotes else inQuotes)
  }

  /** The end of the line begun at i: the scan of a fresh call. */
  function LineEnd(s: string, i: nat): (e: Option<nat>)
    requires i <= |s|
    ensures e.Some? ==> i < e.value <= |s| && s[e.value - 1] == '>'
  {
    Scan(s, i, false)
  }

  /** The scan stops just past the first '>' outside quotes, and runs to the end when there is none. */
  lemma {:induction false} ScanFirstClose(s: string, i: nat, j: nat)
    requires i <= j <= |s|
    ensures Scan(s, j, Flag(s, i, j)).None? <==> forall k :: j <= k < |s| ==> !Closes(s, i, k)
    ensures forall e :: Scan(s, j, Flag(s, i, j)) == Some(e) <==>
              j < e <= |s| && Closes(s, i, e - 1) && forall k :: j <= k < e - 1 ==> !Closes(s, i, k)
    decreases |s| - j
  {
    if j < |s| {
      if Closes(s, i, j) {
        assert Scan(s, j, Flag(s, i, j)) == Some(j + 1);
      } else {
        assert Flag(s, i, j + 1) == if Toggles(s[j]) then !Flag(s, i, j) else Flag(s, i, j);
        assert Scan(s, j, Flag(s, i, j)) == Scan(s, j + 1, Flag(s, i, j + 1));
        ScanFirstClose(s, i, j + 1);
      }
    }
  }

  /** A line ends just past the first '>' read outside quotes; with none left, the call reaches the end of input. */
  lemma LineEndFirstClose(s: string, i: nat)
    requires i <= |s|
    ensures LineEnd(s, i).None? <==> forall k :: i <= k < |s| ==> !Closes(s, i, k)
    ensures forall e :: LineEnd(s, i) == Some(e) <==>
              i < e <= |s| && Closes(s, i, e - 1) && forall k :: i <= k < e - 1 ==> !Closes(s, i, k)
  {
    ScanFirstClose(s, i, i);
  }

  /**
   * A '>' inside quotes flips the flag like a quote does, so it closes the
   * quote: in `">x>` the last '>' ends the line although a quote is open,
   * and in `">"x>` the quote reopened after it swallows the last '>'.
   */
  lemma QuotedCloseToggles()
    ensures LineEnd(['"', '>', 'x', '>'], 0) == Some(4)
    ensures LineEnd(['"', '>', '"', 'x', '>'], 0) == None
  {
    var s := ['"', '>', 'x', '>'];
    assert Scan(s, 0, false) == Scan(s, 1, true) == Scan(s, 2, false) == Scan(s, 3, false);
    var t := ['"', '>', '"', 'x', '>'];
    assert Scan(t, 0, false) == Scan(t, 1, true) == Scan(t, 2, false) == Scan(t, 3, true);
    assert Scan(t, 3, true) == Scan(t, 4, true) == Scan(t, 5, false);
  }

  /** The in-quotes flag the reader's comment describes: only a double quote flips it. */
  function QuoteFlag(s: string, i: nat, j: nat): bool
    requires i <= j <= |s|
    decreases j - i
  {
    if j == i then false
    else if s[j - 1] == '"' then !QuoteFlag(s, i, j - 1)
    else QuoteFlag(s, i, j - 1)
  }

  /** The scan with the fall-through removed: a '>' inside quotes is kept and leaves the flag alone. */
  function IntendedScan(s: string, j: nat, inQuotes: bool): (e: Option<nat>)
    requires j <= |s|
    ensures e.Some? ==> j < e.value <= |s| && s[e.value - 1] == '>'
    decreases |s| - j
  {
    if j == |s| then None
    else if s[j] == '>' && !inQuotes then Some(j + 1)
    else IntendedScan(s, j + 1, if s[j] == '"' then !inQuotes else inQuotes)
  }

  /**
   * The corrected scan ends a line just past the first '>' that follows an
   * even number of double quotes, and finds nothing when there is none.
   */
  lemma {:induction false} IntendedFirstClose(s: string, i: nat, j: nat)
    requires i <= j <= |s|
    ensures IntendedScan(s, j, QuoteFlag(s, i, j)).None? <==>
              forall k :: j <= k < |s| ==> !(s[k] == '>' && !QuoteFlag(s, i, k))
    ensures forall e :: IntendedScan(s, j, QuoteFlag(s, i, j)) == Some(e) <==>
              j < e <= |s| && s[e - 1] == '>' && !QuoteFlag(s, i, e - 1)
              && forall k :: j <= k < e - 1 ==> !(s[k] == '>' && !QuoteFlag(s, i, k))
    decreases |s| - j
  {
    if j < |s| {
      if s[j] == '>' && !QuoteFlag(s, i, j) {
        assert IntendedScan(s, j, QuoteFlag(s, i, j)) == Some(j + 1);
      } else {
        assert QuoteFlag(s, i, j + 1) == if s[j] == '"' then !QuoteFlag(s, i, j) else QuoteFlag(s, i, j);
        assert IntendedScan(s, j, QuoteFlag(s, i, j)) == IntendedScan(s, j + 1, QuoteFlag(s, i, j + 1));
        IntendedFirstClose(s, i, j + 1);
      }
    }
  }

  /** On `">"x>` the corrected scan keeps the quoted '>' and ends the line at the last one. */
  lemma IntendedQuotedClose()
    ensures IntendedScan(['"', '>', '"', 'x', '>'], 0, false) == Some(5)
  {
    var t := ['"', '>', '"', 'x', '>'];
    assert IntendedScan(t, 0, false) == IntendedScan(t, 1, true) == IntendedScan(t, 2, true) == IntendedScan(t, 3, false);
    assert IntendedScan(t, 3, false) == IntendedScan(t, 4, false) == Some(5);
  }

  /** The successive non-null results of readLine from position i, until it returns null. */
  function Lines(s: string, i: nat): (ls: seq<string>)
    requires i <= |s|
    decreases |s| - i
  {
    match LineEnd(s, i)
    case None => []
    case Some(e) => [s[i..e]] + Lines(s, e)
  }

  function Concat(ls: seq<string>): string
  {
    if ls == [] then [] else ls[0] + Concat(ls[1..])
  }

  /** Every line is non-empty and ends with '>'. */
  lemma {:induction false} LinesClosed(s: string, i: nat)
    requires i <= |s|
    ensures forall n :: 0 <= n < |Lines(s, i)| ==> |Lines(s, i)[n]| > 0 && Lines(s, i)[n][|Lines(s, i)[n]| - 1] == '>'
    decreases |s| - i
  {
    match LineEnd(s, i)
    case None =>
    case Some(e) =>
      LinesClosed(s, e);
      assert Lines(s, i) == [s[i..e]] + Lines(s, e);
  }

  /**
   * The lines concatenate to a prefix of the input, and what follows that
   * prefix (the partial chunk that end of input discards) holds no '>'
   * outside quotes.
   */
  lemma {:induction false} LinesPrefix(s: string, i: nat)
    requires i <= |s|
    ensures Concat(Lines(s, i)) <= s[i..]
    ensures LineEnd(s, i + |Concat(Lines(s, i))|).None?
    decreases |s| - i
  {
    match LineEnd(s, i)
    case None =>
      assert Lines(s, i) == [];
    case Some(e) =>
      LinesPrefix(s, e);
      var rest := Concat(Lines(s, e));
      var ls := Lines(s, i);
      assert ls == [s[i..e]] + Lines(s, e);
      assert ls[1..] == Lines(s, e);
      assert Concat(ls) == s[i..e] + rest;
      assert s[i..] == s[i..e] + s[e..];
      PrefixAppend(s[i..e], rest, s[e..]);
  }

  lemma PrefixAppend(a: string, b: string, c: string)
    requires b <= c
    ensures a + b <= a + c
  {
    assert (a + b)[..|a| + |b|] == a + b;
    assert (a + c)[..|a| + |b|] == a + c[..|b|];
  }

  /** The reader: the template's characters and the position of the next character to read. */
  class TemplateReader {
    const input: string
    var pos: nat

    predicate Valid()
      reads this
    {
      pos <= |input|
    }

    constructor(text: string)
      ensures Valid() && input == text && pos == 0
    {
      input := text;
      pos := 0;
    }

    /**
     * Reads one character at a time up to and including the first '>' outside
     * quotes; at end of input returns None, the characters read being gone.
     */
    method ReadLine() returns (line: Option<string>)
      requires Valid()
      modifies this
      ensures Valid()
      ensures line.Some? <==> LineEnd(input, old(pos)).Some?
      ensures line.Some? ==> line.value == input[old(pos)..LineEnd(input, old(pos)).value] && pos == LineEnd(input, old(pos)).value
      ensures line.None? ==> pos == |input|
    {
      var start := pos;
      var result: string := [];
      var inQuotes := false;
      while pos < |input|
        invariant start <= pos <= |input|
        invariant result == input[start..pos]
        invariant Scan(input, pos, inQuotes) == LineEnd(input, start)
        decreases |input| - pos
      {
        var c := input[pos];
        pos := pos + 1;
        result := result + [c];
        if c == '>' && !inQuotes {
          return Some(result);
        }
        // a quoted '>' falls through into the quote case
        if c == '>' || c == '"' {
          inQuotes := !inQuotes;
        }
      }
      return None;
    }

    /** The template pass's read loop: readLine until it returns null. */
    method ReadLines() returns (lines: seq<string>)
      requires Valid()
      modifies this
      ensures Valid() && pos == |input|
      ensures lines == Lines(input, old(pos))
    {
      lines := [];
      ghost var start := pos;
      var line := ReadLine();
      if line.Some? {
        assert Lines(input, start) == [line.value] + Lines(input, pos);
      } else {
        assert Lines(input, start) == [];
      }
      while line.Some?
        invariant Valid()
        invariant line.Some? ==> lines + [line.value] + Lines(input, pos) == Lines(input, old(pos))
        invariant line.None? ==> lines == Lines(input, old(pos)) && pos == |input|
        decreases |input| - pos, line.Some?
      {
        lines := lines + [line.value];
        ghost var before := pos;
        line := ReadLine();
        if line.Some? {
          assert Lines(input, before) == [line.value] + Lines(input, pos);
        } else {
          assert Lines(input, before) == [];
        }
      }
    }
  }
}
