/**
 * The handful of Python `str` operations the query pipeline relies on
 * (`strip`, `rstrip`, `upper`, `startswith`, `in`, `splitlines`, `join`,
 * slicing), restricted to ASCII text and to "\n" as the only line break.
 */
module PyStr {

  /** The ASCII characters for which Python's `str.isspace()` holds; `strip()` and the regex `\s` use this set. */
  const Whitespace: set<char> := set c: char | c == ' ' || '\t' <= c <= '\r' || '\U{001C}' <= c <= '\U{001F}'

  const Digits: set<char> := set c: char | '0' <= c <= '9'

  predicate IsSpace(c: char) { c in Whitespace }

  /** The regex word class `[A-Za-z0-9_]`. */
  predicate IsWordChar(c: char) { 'A' <= c <= 'Z' || 'a' <= c <= 'z' || c in Digits || c == '_' }

  function UpperChar(c: char): char
  {
    if 'a' <= c <= 'z' then (c as int - 'a' as int + 'A' as int) as char else c
  }

  /** `s.upper()` on ASCII text: each lower-case letter becomes its capital, nothing else changes. */
  function Upper(s: string): (r: string)
    ensures |r| == |s|
    ensures forall i :: 0 <= i < |s| ==> r[i] == UpperChar(s[i])
  {
    seq(|s|, i requires 0 <= i < |s| => UpperChar(s[i]))
  }

  lemma UpperAppend(a: string, b: string)
    ensures Upper(a + b) == Upper(a) + Upper(b)
  {
    assert forall i :: 0 <= i < |a + b| ==> Upper(a + b)[i] == (Upper(a) + Upper(b))[i];
  }

  lemma UpperSlice(s: string, i: int, j: int)
    requires 0 <= i <= j <= |s|
    ensures Upper(s[i..j]) == Upper(s)[i..j]
  {
    assert forall k :: 0 <= k < j - i ==> Upper(s[i..j])[k] == Upper(s)[i..j][k];
  }

  predicate StartsWith(s: string, prefix: string)
  {
    |prefix| <= |s| && s[..|prefix|] == prefix
  }

  /** `w` occurs in `s` starting at index `i`. */
  predicate OccursAt(s: string, w: string, i: int)
  {
    0 <= i && i + |w| <= |s| && s[i..i + |w|] == w
  }

  /** Python's substring test `w in s`. */
  predicate Contains(s: string, w: string)
  {
    exists i | 0 <= i <= |s| :: OccursAt(s, w, i)
  }

  /** A character of `w` that `s` lacks keeps `w` out of `s`. */
  lemma MissingCharNotContained(s: string, w: string, c: char)
    requires c in w && c !in s
    ensures !Contains(s, w)
  {
  }

  /** An occurrence inside an occurrence is an occurrence. */
  lemma OccursWithin(s: string, w: string, v: string, i: int, j: int)
    requires OccursAt(s, w, i) && OccursAt(w, v, j)
    ensures OccursAt(s, v, i + j)
  {
    forall k | 0 <= k < |v|
      ensures s[i + j + k] == v[k]
    {
      assert w[j + k] == v[k];
      assert s[i + j + k] == w[j + k];
    }
  }

  /** Whatever occurs in a slice of `s` occurs in `s`. */
  lemma ContainsInSlice(s: string, i: int, j: int, w: string)
    requires 0 <= i <= j <= |s| && Contains(s[i..j], w)
    ensures Contains(s, w)
  {
    var k :| 0 <= k <= |s[i..j]| && OccursAt(s[i..j], w, k);
    assert OccursAt(s, s[i..j], i);
    OccursWithin(s, s[i..j], w, i, k);
  }

  /** An occurrence that spans the seam of `s + t` contains the first character of `t`. */
  lemma StraddleHoldsSeamChar(s: string, t: string, w: string, i: int)
    requires OccursAt(s + t, w, i) && i <= |s| < i + |w|
    ensures t[0] in w
  {
    assert w[|s| - i] == (s + t)[|s|];
  }

  /**
   * Appending text that starts with a character `w` lacks creates no new
   * occurrence of `w`.
   */
  lemma AppendCreatesNoStraddle(s: string, t: string, w: string)
    requires t != [] && t[0] !in w && !Contains(s, w) && !Contains(t, w)
    ensures !Contains(s + t, w)
  {
    forall i | 0 <= i <= |s + t|
      ensures !OccursAt(s + t, w, i)
    {
      if i + |w| <= |s| {
        assert (s + t)[i..i + |w|] == s[i..i + |w|];
        assert !OccursAt(s, w, i);
      } else if |s| < i && i + |w| <= |s + t| {
        assert (s + t)[i..i + |w|] == t[i - |s|..i - |s| + |w|];
        assert !OccursAt(t, w, i - |s|);
      } else if OccursAt(s + t, w, i) {
        StraddleHoldsSeamChar(s, t, w, i);
      }
    }
  }

  /** The first index from `i` on whose character is not in `cs`, or `|s|`. */
  function LeadEnd(s: string, cs: set<char>, i: nat): (e: nat)
    requires i <= |s|
    ensures i <= e <= |s| && (e == |s| || s[e] !in cs)
    decreases |s| - i
  {
    if i < |s| && s[i] in cs then LeadEnd(s, cs, i + 1) else i
  }

  /** Every character the run passes over is in `cs`. */
  lemma {:induction false} LeadEndSkips(s: string, cs: set<char>, i: nat, k: nat)
    requires i <= |s| && i <= k < LeadEnd(s, cs, i)
    ensures s[k] in cs
    decreases k - i
  {
    if k > i {
      LeadEndSkips(s, cs, i + 1, k);
    }
  }

  /** The start of the run of `cs` characters that ends just before `j`. */
  function TrailStart(s: string, cs: set<char>, j: nat): (b: nat)
    requires j <= |s|
    ensures b <= j && (b == 0 || s[b - 1] !in cs)
  {
    if j > 0 && s[j - 1] in cs then TrailStart(s, cs, j - 1) else j
  }

  /** Every character of the run is in `cs`. */
  lemma {:induction false} TrailStartSkips(s: string, cs: set<char>, j: nat, k: nat)
    requires j <= |s| && TrailStart(s, cs, j) <= k < j
    ensures s[k] in cs
  {
    if k < j - 1 {
      TrailStartSkips(s, cs, j - 1, k);
    }
  }

  /** `s.lstrip(cs)`: drops the longest prefix made of characters of `cs`. */
  function LStripChars(s: string, cs: set<char>): (r: string)
    ensures |r| <= |s|
    ensures r == [] || r[0] !in cs
  {
    s[LeadEnd(s, cs, 0)..]
  }

  /** What `lstrip` keeps is the suffix of its own length. */
  lemma LStripIsSuffix(s: string, cs: set<char>)
    ensures LStripChars(s, cs) == s[|s| - |LStripChars(s, cs)|..]
  {
  }

  /** `s.rstrip(cs)`: drops the longest suffix made of characters of `cs`. */
  function RStripChars(s: string, cs: set<char>): (r: string)
    ensures |r| <= |s| && r == s[..|r|]
    ensures r == [] || r[|r| - 1] !in cs
  {
    s[..TrailStart(s, cs, |s|)]
  }

  /** A character outside `cs` is never stripped from the left, so it survives at its offset. */
  lemma LStripKeeps(s: string, cs: set<char>, i: int)
    requires 0 <= i < |s| && s[i] !in cs
    ensures |s| - |LStripChars(s, cs)| <= i
  {
    if LeadEnd(s, cs, 0) > i {
      LeadEndSkips(s, cs, 0, i);
    }
  }

  /** A character outside `cs` is never stripped from the right. */
  lemma RStripKeeps(s: string, cs: set<char>, i: int)
    requires 0 <= i < |s| && s[i] !in cs
    ensures i < |RStripChars(s, cs)|
  {
    if TrailStart(s, cs, |s|) <= i {
      TrailStartSkips(s, cs, |s|, i);
    }
  }

  /** One leading `cs` character before a character outside `cs` is all `lstrip` drops. */
  lemma LStripOne(s: string, cs: set<char>)
    requires |s| >= 2 && s[0] in cs && s[1] !in cs
    ensures LStripChars(s, cs) == s[1..]
  {
    assert LeadEnd(s, cs, 1) == 1;
  }

  /** One trailing `cs` character after a character outside `cs` is all `rstrip` drops. */
  lemma RStripOne(s: string, cs: set<char>)
    requires |s| >= 2 && s[|s| - 1] in cs && s[|s| - 2] !in cs
    ensures RStripChars(s, cs) == s[..|s| - 1]
  {
    assert TrailStart(s, cs, |s| - 1) == |s| - 1;
  }

  /** `s.strip(cs)`. */
  function StripChars(s: string, cs: set<char>): (r: string)
    ensures r == [] || (r[0] !in cs && r[|r| - 1] !in cs)
  {
    RStripChars(LStripChars(s, cs), cs)
  }

  /** Text with neither leading nor trailing whitespace. */
  predicate IsStripped(s: string)
  {
    s == [] || (!IsSpace(s[0]) && !IsSpace(s[|s| - 1]))
  }

  /** `s.strip()` with no argument. */
  function Strip(s: string): (r: string)
    ensures IsStripped(r)
  {
    StripChars(s, Whitespace)
  }

  /** `strip()` leaves nothing exactly when every character is whitespace. */
  lemma StripEmptyExactlyWhenAllSpace(s: string)
    ensures Strip(s) == [] <==> forall i | 0 <= i < |s| :: IsSpace(s[i])
  {
    if exists i | 0 <= i < |s| :: !IsSpace(s[i]) {
      var i :| 0 <= i < |s| && !IsSpace(s[i]);
      var l := LStripChars(s, Whitespace);
      LStripKeeps(s, Whitespace, i);
      LStripIsSuffix(s, Whitespace);
      var o := i - (|s| - |l|);
      assert l[o] == s[i];
      RStripKeeps(l, Whitespace, o);
    }
  }

  lemma StripCharsUnchanged(s: string, cs: set<char>)
    requires s == [] || (s[0] !in cs && s[|s| - 1] !in cs)
    ensures StripChars(s, cs) == s
  {
  }

  lemma StripUnchanged(s: string)
    requires IsStripped(s)
    ensures Strip(s) == s
  {
    StripCharsUnchanged(s, Whitespace);
  }

  /** A prefix of a suffix is a slice. */
  lemma PrefixOfSuffix(s: string, a: int, n: int)
    requires 0 <= a <= |s| && 0 <= n <= |s| - a
    ensures s[a..][..n] == s[a..a + n]
  {
  }

  /** `s.strip()` is a slice of `s`. */
  lemma StripIsSlice(s: string)
    ensures var a := |s| - |LStripChars(s, Whitespace)|; 0 <= a && a + |Strip(s)| <= |s| && Strip(s) == s[a..a + |Strip(s)|]
  {
    var l := LStripChars(s, Whitespace);
    var a := |s| - |l|;
    var r := RStripChars(l, Whitespace);
    assert r == l[..|r|];
    LStripIsSuffix(s, Whitespace);
    assert l == s[a..];
    PrefixOfSuffix(s, a, |r|);
    assert Strip(s) == r;
  }

  /** Trimming cannot create an occurrence. */
  lemma NotContainedAfterStrip(s: string, w: string)
    requires !Contains(s, w)
    ensures !Contains(Strip(s), w)
  {
    StripIsSlice(s);
    var a := |s| - |LStripChars(s, Whitespace)|;
    if Contains(Strip(s), w) {
      ContainsInSlice(s, a, a + |Strip(s)|, w);
    }
  }

  /** Trimming keeps a prefix that neither starts nor ends with whitespace. */
  lemma StripKeepsPrefix(s: string, n: int)
    requires 0 < n <= |s| && !IsSpace(s[0]) && !IsSpace(s[n - 1])
    ensures StartsWith(Strip(s), s[..n])
  {
    var l := LStripChars(s, Whitespace);
    LStripKeeps(s, Whitespace, 0);
    LStripIsSuffix(s, Whitespace);
    assert l == s[0..] == s;
    var r := RStripChars(s, Whitespace);
    RStripKeeps(s, Whitespace, n - 1);
    assert n <= |r| && r == s[..|r|];
    assert r[..n] == s[..n];
    assert Strip(s) == RStripChars(l, Whitespace) == r;
  }

  /** A stripped string that does not end in a `cs` character survives `rstrip(cs)`. */
  lemma RStripCharsUnchanged(s: string, cs: set<char>)
    requires s == [] || s[|s| - 1] !in cs
    ensures RStripChars(s, cs) == s
  {
  }

  /** Index of the first `c` in `s`. */
  function IndexOf(s: string, c: char): (i: nat)
    requires c in s
    ensures i < |s| && s[i] == c && c !in s[..i]
  {
    if s[0] == c then 0
    else
      var j := IndexOf(s[1..], c);
      assert s[..j + 1] == [s[0]] + s[1..][..j];
      j + 1
  }

  /**
   * `s.splitlines()` with "\n" as the only line break: the lines of `s`
   * without their terminators; a final "\n" opens no extra empty line.
   */
  function SplitLines(s: string): (lines: seq<string>)
    ensures s != [] ==> lines != []
    decreases |s|
  {
    if s == [] then []
    else if '\n' !in s then [s]
    else
      var i := IndexOf(s, '\n');
      [s[..i]] + SplitLines(s[i + 1..])
  }

  /** `sep.join(parts)`. */
  function Join(sep: string, parts: seq<string>): (r: string)
    ensures |parts| == 1 ==> r == parts[0]
  {
    if |parts| == 0 then ""
    else if |parts| == 1 then parts[0]
    else parts[0] + sep + Join(sep, parts[1..])
  }

  /** Joining one more part appends the separator and that part. */
  lemma {:induction false} JoinAppend(sep: string, parts: seq<string>, p: string)
    requires parts != []
    ensures Join(sep, parts + [p]) == Join(sep, parts) + sep + p
    decreases |parts|
  {
    if |parts| == 1 {
      assert parts + [p] == [parts[0], p];
    } else {
      assert (parts + [p])[1..] == parts[1..] + [p];
      JoinAppend(sep, parts[1..], p);
    }
  }

  /** A part put in front of non-empty parts is joined to them by the separator. */
  lemma JoinCons(sep: string, p: string, parts: seq<string>)
    requires parts != []
    ensures Join(sep, [p] + parts) == p + sep + Join(sep, parts)
  {
    assert ([p] + parts)[1..] == parts;
  }

  /** Joining the lines of `s` with "\n" gives `s` back, unless `s` ends in a line break. */
  lemma {:induction false} JoinSplitLines(s: string)
    requires s == [] || s[|s| - 1] != '\n'
    ensures Join("\n", SplitLines(s)) == s
    decreases |s|
  {
    if s != [] && '\n' in s {
      var i := IndexOf(s, '\n');
      var rest := s[i + 1..];
      assert rest != [] && rest[|rest| - 1] == s[|s| - 1];
      calc {
        Join("\n", SplitLines(s));
      == { SplitLinesAtBreak(s, i); }
        Join("\n", [s[..i]] + SplitLines(rest));
      == { JoinCons("\n", s[..i], SplitLines(rest)); }
        s[..i] + "\n" + Join("\n", SplitLines(rest));
      == { JoinSplitLines(rest); }
        s[..i] + "\n" + rest;
      == { SplitAroundBreak(s, i); }
        s;
      }
    }
  }

  /** A text is the part before a line break, the break and the part after it. */
  lemma SplitAroundBreak(s: string, i: nat)
    requires i < |s| && s[i] == '\n'
    ensures s[..i] + "\n" + s[i + 1..] == s
  {
    assert s == s[..i] + [s[i]] + s[i + 1..];
  }

  /** A `c` with none before it is the first one. */
  lemma IndexOfIs(s: string, c: char, i: nat)
    requires i < |s| && s[i] == c && c !in s[..i]
    ensures IndexOf(s, c) == i
  {
  }

  /** The lines of `a + "\n" + b` are those of `a` followed by those of `b`, when `a` is a non-empty text not ending in a line break. */
  lemma {:induction false} SplitLinesAppend(a: string, b: string)
    requires a != [] && a[|a| - 1] != '\n'
    ensures SplitLines(a + "\n" + b) == SplitLines(a) + SplitLines(b)
    decreases |a|
  {
    var s := a + "\n" + b;
    if '\n' !in a {
      assert s[..|a|] == a && s[|a| + 1..] == b;
      SplitLinesAtBreak(s, |a|);
    } else {
      var i := IndexOf(a, '\n');
      assert i != |a| - 1;
      var a' := a[i + 1..];
      calc {
        SplitLines(s);
        == { SplitLinesAtBreak(s, i); }
        [s[..i]] + SplitLines(s[i + 1..]);
        == { assert s[..i] == a[..i]; assert s[i + 1..] == a' + "\n" + b; }
        [a[..i]] + SplitLines(a' + "\n" + b);
        == { SplitLinesAppend(a', b); }
        [a[..i]] + (SplitLines(a') + SplitLines(b));
        == ([a[..i]] + SplitLines(a')) + SplitLines(b);
        == { SplitLinesAtBreak(a, i); }
        SplitLines(a) + SplitLines(b);
      }
    }
  }

  /** A first line break at `i` ends the first line there. */
  lemma SplitLinesAtBreak(s: string, i: nat)
    requires i < |s| && s[i] == '\n' && '\n' !in s[..i]
    ensures SplitLines(s) == [s[..i]] + SplitLines(s[i + 1..])
  {
    IndexOfIs(s, '\n', i);
  }

  /** Python's slice `s[:n]`, including its reading of a negative `n` as counted from the end. */
  function PyPrefix(s: string, n: int): (r: string)
    ensures |r| <= |s| && r == s[..|r|]
    ensures 0 <= n ==> |r| <= n
    ensures 0 <= n ==> |r| == if n < |s| then n else |s|
    ensures 0 <= n && |s| <= n ==> r == s
    ensures n < 0 ==> |r| == if |s| + n < 0 then 0 else |s| + n
  {
    if 0 <= n then (if n < |s| then s[..n] else s)
    else if |s| + n < 0 then ""
    else s[..|s| + n]
  }
}
