/**
 * The few java.lang.String operations the application relies on:
 * lexicographic compareTo (the iteration order of a TreeMap with String keys),
 * trim, contains, replace, ASCII case folding and decimal rendering.
 */
module JavaStrings {
  import opened Wrappers

  /** String.compareTo(a, b) < 0: first differing character decides, else the shorter string is smaller. */
  predicate Less(a: string, b: string)
  {
    if |a| == 0 then |b| > 0
    else if |b| == 0 then false
    else if a[0] != b[0] then a[0] < b[0]
    else Less(a[1..], b[1..])
  }

  lemma {:induction false} LessIrreflexive(a: string)
    ensures !Less(a, a)
  {
    if |a| > 0 { LessIrreflexive(a[1..]); }
  }

  lemma {:induction false} LessAsymmetric(a: string, b: string)
    ensures Less(a, b) ==> !Less(b, a)
  {
    if |a| > 0 && |b| > 0 && a[0] == b[0] { LessAsymmetric(a[1..], b[1..]); }
  }

  lemma {:induction false} LessTransitive(a: string, b: string, c: string)
    requires Less(a, b) && Less(b, c)
    ensures Less(a, c)
  {
    if |a| > 0 && a[0] == b[0] && b[0] == c[0] { LessTransitive(a[1..], b[1..], c[1..]); }
  }

  lemma {:induction false} LessTotal(a: string, b: string)
    ensures a == b || Less(a, b) || Less(b, a)
  {
    if |a| > 0 && |b| > 0 && a[0] == b[0] {
      LessTotal(a[1..], b[1..]);
      assert a == [a[0]] + a[1..] && b == [b[0]] + b[1..];
    }
  }

  /** k is the smallest element of ks in String.compareTo order. */
  predicate IsLeast(k: string, ks: set<string>)
  {
    k in ks && forall j :: j in ks && j != k ==> Less(k, j)
  }

  lemma {:induction false} LeastExists(ks: set<string>)
    requires ks != {}
    ensures exists k :: IsLeast(k, ks)
    decreases |ks|
  {
    var x :| x in ks;
    if ks == {x} {
      assert IsLeast(x, ks);
    } else {
      LeastExists(ks - {x});
      var m :| IsLeast(m, ks - {x});
      LessTotal(m, x);
      if Less(m, x) {
        assert IsLeast(m, ks);
      } else {
        forall j | j in ks && j != x ensures Less(x, j) {
          if j != m { LessTransitive(x, m, j); }
        }
        assert IsLeast(x, ks);
      }
    }
  }

  lemma LeastUnique(ks: set<string>)
    ensures forall k1, k2 :: IsLeast(k1, ks) && IsLeast(k2, ks) ==> k1 == k2
  {
    forall k1, k2 | IsLeast(k1, ks) && IsLeast(k2, ks) ensures k1 == k2 {
      if k1 != k2 { LessAsymmetric(k1, k2); }
    }
  }

  /** The smallest key of a non-empty set of strings. */
  function Least(ks: set<string>): (k: string)
    requires ks != {}
    ensures IsLeast(k, ks)
  {
    LeastExists(ks);
    LeastUnique(ks);
    var k :| IsLeast(k, ks);
    k
  }

  /** The keys of ks in ascending String.compareTo order: the order a TreeMap iterates in. */
  function SortedKeys(ks: set<string>): seq<string>
    decreases |ks|
  {
    if ks == {} then [] else [Least(ks)] + SortedKeys(ks - {Least(ks)})
  }

  /** SortedKeys lists every key of ks exactly once, in strictly ascending order. */
  lemma {:induction false} SortedKeysSpec(ks: set<string>)
    ensures |SortedKeys(ks)| == |ks|
    ensures forall i :: 0 <= i < |SortedKeys(ks)| ==> SortedKeys(ks)[i] in ks
    ensures forall k :: k in ks ==> k in SortedKeys(ks)
    ensures forall i, j :: 0 <= i < j < |SortedKeys(ks)| ==> Less(SortedKeys(ks)[i], SortedKeys(ks)[j])
    decreases |ks|
  {
    if ks != {} {
      var least := Least(ks);
      var rest := ks - {least};
      SortedKeysSpec(rest);
      var r := SortedKeys(ks);
      assert r == [least] + SortedKeys(rest);
      forall k | k in ks ensures k in r {
        if k != least { assert k in rest; }
      }
    }
  }

  /** SortedKeys lists every key of ks and nothing else (the order left out, for callers that need only the members). */
  lemma SortedKeysMembers(ks: set<string>)
    ensures |SortedKeys(ks)| == |ks|
    ensures forall i :: 0 <= i < |SortedKeys(ks)| ==> SortedKeys(ks)[i] in ks
    ensures forall k :: k in ks ==> k in SortedKeys(ks)
  {
    SortedKeysSpec(ks);
  }

  /** Character.toLowerCase restricted to ASCII letters. */
  function LowerChar(c: char): (d: char)
  {
    if 'A' <= c <= 'Z' then (c as int + 32) as char else c
  }

  /** String.toLowerCase restricted to ASCII letters. */
  function Lower(s: string): (r: string)
    ensures |r| == |s|
    ensures forall i :: 0 <= i < |s| ==> r[i] == LowerChar(s[i])
  {
    if |s| == 0 then [] else [LowerChar(s[0])] + Lower(s[1..])
  }

  /** String.equalsIgnoreCase, with ASCII case folding. */
  predicate EqualsIgnoreCase(a: string, b: string)
  {
    Lower(a) == Lower(b)
  }

  /** String.startsWith */
  predicate StartsWith(s: string, prefix: string)
  {
    |prefix| <= |s| && s[..|prefix|] == prefix
  }

  /** String.contains: some suffix of s starts with t. */
  predicate Contains(s: string, t: string)
  {
    StartsWith(s, t) || (|s| > 0 && Contains(s[1..], t))
  }

  /** The characters String.trim removes: every code point up to and including the space. */
  predicate IsTrimmed(c: char)
  {
    c <= ' '
  }

  function TrimLeft(s: string): (r: string)
    ensures |r| <= |s|
  {
    if |s| > 0 && IsTrimmed(s[0]) then TrimLeft(s[1..]) else s
  }

  /** TrimLeft drops the leading run of trimmed characters and nothing else. */
  lemma {:induction false} TrimLeftSpec(s: string)
    ensures TrimLeft(s) == s[|s| - |TrimLeft(s)|..]
    ensures |TrimLeft(s)| > 0 ==> !IsTrimmed(TrimLeft(s)[0])
    ensures forall i :: 0 <= i < |s| - |TrimLeft(s)| ==> IsTrimmed(s[i])
    decreases |s|
  {
    if |s| > 0 && IsTrimmed(s[0]) {
      TrimLeftSpec(s[1..]);
      assert s[1..][|s| - 1 - |TrimLeft(s)|..] == s[|s| - |TrimLeft(s)|..];
    }
  }

  function TrimRight(s: string): (r: string)
    ensures |r| <= |s|
  {
    if |s| > 0 && IsTrimmed(s[|s| - 1]) then TrimRight(s[..|s| - 1]) else s
  }

  /** TrimRight drops the trailing run of trimmed characters and nothing else. */
  lemma {:induction false} TrimRightSpec(s: string)
    ensures TrimRight(s) == s[..|TrimRight(s)|]
    ensures |TrimRight(s)| > 0 ==> !IsTrimmed(TrimRight(s)[|TrimRight(s)| - 1])
    ensures forall i :: |TrimRight(s)| <= i < |s| ==> IsTrimmed(s[i])
    decreases |s|
  {
    if |s| > 0 && IsTrimmed(s[|s| - 1]) {
      TrimRightSpec(s[..|s| - 1]);
      assert s[..|s| - 1][..|TrimRight(s)|] == s[..|TrimRight(s)|];
    }
  }

  /** String.trim: drop leading and trailing characters up to ' '. */
  function Trim(s: string): string
  {
    TrimRight(TrimLeft(s))
  }

  /** The trimmed text starts and ends with a kept character, and is empty exactly for an all-trimmed text. */
  lemma TrimSpec(s: string)
    ensures var r := Trim(s); |r| > 0 ==> !IsTrimmed(r[0]) && !IsTrimmed(r[|r| - 1])
    ensures Trim(s) == "" <==> forall i :: 0 <= i < |s| ==> IsTrimmed(s[i])
  {
    var l := TrimLeft(s);
    TrimLeftSpec(s);
    TrimRightSpec(l);
    var r := Trim(s);
    if |r| > 0 {
      assert r[0] == l[0];
    }
    assert r == "" ==> l == "";
  }

  lemma TrimKeeps(s: string)
    requires |s| > 0 && !IsTrimmed(s[0]) && !IsTrimmed(s[|s| - 1])
    ensures Trim(s) == s
  {
  }

  /** String.replace(target, replacement): every non-overlapping occurrence, scanning left to right. */
  function Replace(s: string, target: string, replacement: string): (r: string)
    requires |target| > 0
    decreases |s|
  {
    if |s| < |target| then s
    else if s[..|target|] == target then replacement + Replace(s[|target|..], target, replacement)
    else [s[0]] + Replace(s[1..], target, replacement)
  }

  lemma {:induction false} ReplaceAbsent(s: string, target: string, replacement: string)
    requires |target| > 0 && !Contains(s, target)
    ensures Replace(s, target, replacement) == s
    decreases |s|
  {
    if |s| >= |target| {
      ReplaceAbsent(s[1..], target, replacement);
    }
  }

  /** Integer.toString for a natural number. */
  function NatToString(n: nat): (r: string)
    ensures |r| > 0
  {
    if n < 10 then [DigitChar(n)] else NatToString(n / 10) + [DigitChar(n % 10)]
  }

  function DigitChar(d: nat): char
    requires d < 10
  {
    (d + '0' as int) as char
  }
}
