/**
 * `normalize_sql`: trims the model's SQL, peels a Markdown code fence off
 * it and cuts away any prose in front of the first whole-word SELECT.
 */
module SqlNormalize {
  import opened Wrappers
  import opened PyStr
  import opened SqlPatterns

  const Fence := "```"

  /** Drops the first line when it opens a fence, then the last remaining line when it starts with one. */
  function DropFenceLines(lines: seq<string>): (kept: seq<string>)
    ensures |lines| - 2 <= |kept| <= |lines|
    ensures var f := if |lines| > 0 && StartsWith(lines[0], Fence) then 1 else 0;
      kept == lines[f..] || (f < |lines| && StartsWith(lines[|lines| - 1], Fence) && kept == lines[f..|lines| - 1])
    ensures var f := if |lines| > 0 && StartsWith(lines[0], Fence) then 1 else 0;
      f < |lines| && StartsWith(lines[|lines| - 1], Fence) ==> |kept| == |lines| - f - 1
    ensures (forall i | 0 <= i < |lines| :: !StartsWith(lines[i], Fence)) ==> kept == lines
  {
    var a := if |lines| > 0 && StartsWith(lines[0], Fence) then lines[1..] else lines;
    if |a| > 0 && StartsWith(a[|a| - 1], Fence) then a[..|a| - 1] else a
  }

  /**
   * The trimmed text; when it starts with a fence, its lines without the
   * fence lines, rejoined with "\n" and trimmed again.
   */
  function Unfence(sql: string): (u: string)
    ensures IsStripped(u)
    ensures !StartsWith(Strip(sql), Fence) ==> u == Strip(sql)
  {
    var t := Strip(sql);
    if StartsWith(t, Fence) then Strip(Join("\n", DropFenceLines(SplitLines(t)))) else t
  }

  /** The text from a `select\b` onwards of a trimmed text is itself trimmed and starts with a whole-word SELECT. */
  lemma SuffixFromSelect(u: string, i: nat)
    requires IsStripped(u) && SelectThenBoundary(u, i)
    ensures IsStripped(u[i..]) && WholeWordSelectAt(u[i..], 0)
  {
    var v := u[i..];
    assert UpperChar(v[0]) == 'S';
    assert v[|v| - 1] == u[|u| - 1];
  }

  /** `normalize_sql`: the result carries no outer whitespace. */
  function NormalizeSql(sql: string): (r: string)
    ensures IsStripped(r)
  {
    var u := Unfence(sql);
    var m := FirstWholeWordSelect(u, 0);
    Strip(if m.Some? then u[m.value..] else u)
  }

  /** The cut made when a whole-word SELECT is found, before the final trim. */
  lemma NormalizeCutsAt(sql: string, i: nat)
    requires FirstWholeWordSelect(Unfence(sql), 0) == Some(i)
    ensures NormalizeSql(sql) == Strip(Unfence(sql)[i..])
  {
  }

  /** With a whole-word SELECT in the unfenced text, the result starts at the first one and runs to the end of that text. */
  lemma NormalizeStartsAtFirstSelect(sql: string, i: nat)
    requires FirstWholeWordSelect(Unfence(sql), 0) == Some(i)
    ensures NormalizeSql(sql) == Unfence(sql)[i..]
    ensures WholeWordSelectAt(NormalizeSql(sql), 0)
  {
    NormalizeCutsAt(sql, i);
    SuffixFromSelect(Unfence(sql), i);
    StripUnchanged(Unfence(sql)[i..]);
  }

  /** Without a whole-word SELECT, the result is the unfenced text unchanged. */
  lemma NormalizeWithoutSelect(sql: string)
    requires FirstWholeWordSelect(Unfence(sql), 0).None?
    ensures NormalizeSql(sql) == Unfence(sql)
  {
    assert NormalizeSql(sql) == Strip(Unfence(sql));
    StripUnchanged(Unfence(sql));
  }

  /** A text whose first character is not a backtick does not open a fence. */
  lemma NoFenceWithoutBacktick(s: string)
    requires s == [] || s[0] != '`'
    ensures !StartsWith(s, Fence)
  {
    if |Fence| <= |s| {
      assert s[..|Fence|][0] == s[0];
    }
  }

  /** Trimmed text that does not open a fence is its own unfenced form. */
  lemma UnfenceOfUnfenced(s: string)
    requires IsStripped(s) && !StartsWith(s, Fence)
    ensures Unfence(s) == s
  {
    StripUnchanged(s);
  }

  /** A trimmed statement that starts with a whole-word SELECT is left alone. */
  lemma NormalizeKeepsSelectStatement(q: string)
    requires IsStripped(q) && WholeWordSelectAt(q, 0)
    ensures NormalizeSql(q) == q
  {
    NoFenceWithoutBacktick(q);
    UnfenceOfUnfenced(q);
    assert FirstWholeWordSelect(q, 0) == Some(0);
    NormalizeStartsAtFirstSelect(q, 0);
    assert q[0..] == q;
  }

  /** When the unfenced text has a whole-word SELECT, normalising twice is normalising once. */
  lemma NormalizeIdempotentWhenSelectFound(sql: string)
    requires FirstWholeWordSelect(Unfence(sql), 0).Some?
    ensures NormalizeSql(NormalizeSql(sql)) == NormalizeSql(sql)
  {
    var i := FirstWholeWordSelect(Unfence(sql), 0).value;
    NormalizeStartsAtFirstSelect(sql, i);
    NormalizeKeepsSelectStatement(NormalizeSql(sql));
  }

  /** Trimmed text that opens a fence is unfenced by dropping its fence lines. */
  lemma UnfenceOfFenced(s: string)
    requires IsStripped(s) && StartsWith(s, Fence)
    ensures Unfence(s) == Strip(Join("\n", DropFenceLines(SplitLines(s))))
  {
    StripUnchanged(s);
  }

  /** The lines of a fenced statement: the opening line, the statement's own lines, the closing fence. */
  lemma FencedLines(opening: string, q: string)
    requires opening != [] && '\n' !in opening
    requires q != [] && q[|q| - 1] != '\n'
    ensures SplitLines(opening + "\n" + q + "\n" + Fence) == [opening] + SplitLines(q) + [Fence]
  {
    var s := opening + "\n" + q + "\n" + Fence;
    assert s == opening + "\n" + (q + "\n" + Fence);
    SplitLinesAppend(opening, q + "\n" + Fence);
    SplitLinesAppend(q, Fence);
    assert SplitLines(opening) == [opening];
    assert SplitLines(Fence) == [Fence];
  }

  /** Dropping the fence lines around a statement's lines leaves those lines. */
  lemma DropFenceLinesAround(opening: string, body: seq<string>)
    requires StartsWith(opening, Fence)
    ensures DropFenceLines([opening] + body + [Fence]) == body
  {
    var lines := [opening] + body + [Fence];
    assert lines[0] == opening;
    assert lines[1..] == body + [Fence];
    assert StartsWith(Fence, Fence);
  }

  /** A fenced statement as a whole is trimmed and opens a fence. */
  lemma FencedIsStripped(opening: string, q: string)
    requires StartsWith(opening, Fence)
    ensures IsStripped(opening + "\n" + q + "\n" + Fence)
    ensures StartsWith(opening + "\n" + q + "\n" + Fence, Fence)
  {
    var s := opening + "\n" + q + "\n" + Fence;
    assert s[0] == opening[0] && s[|s| - 1] == '`';
    assert s[..3] == opening[..3];
  }

  /**
   * A statement wrapped in a fence (an opening line such as "```sql" and a
   * closing "```") comes out unwrapped.
   */
  lemma NormalizeUnwrapsFencedStatement(opening: string, q: string)
    requires StartsWith(opening, Fence) && '\n' !in opening
    requires IsStripped(q) && WholeWordSelectAt(q, 0)
    ensures NormalizeSql(opening + "\n" + q + "\n" + Fence) == q
  {
    var s := opening + "\n" + q + "\n" + Fence;
    FencedIsStripped(opening, q);
    UnfenceOfFenced(s);
    assert q[|q| - 1] != '\n';
    FencedLines(opening, q);
    DropFenceLinesAround(opening, SplitLines(q));
    JoinSplitLines(q);
    StripUnchanged(q);
    assert Unfence(s) == q;
    NormalizeKeepsSelectStatement(q);
  }
}
