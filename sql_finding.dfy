/**
 * A concrete input on which `execute_sql_query` as written submits a
 * statement its own safety test would reject: normalisation is not
 * idempotent when no whole-word SELECT is found, and the test is applied
 * to the text normalised twice while the statement sent is built from the
 * text normalised once.
 *
 * The input is a fence line, a second line that starts with a fence and
 * goes on with DROP, and a last line holding a word that only begins with
 * SELECT: "```\n```DROP\nSELECTa". The lemmas are stated over its second
 * line `b` and last line `w`, so that the verifier never evaluates the
 * string functions on the literal as a whole.
 */
module SqlFinding {
  import opened Wrappers
  import opened PyStr
  import opened SqlPatterns
  import opened SqlNormalize
  import opened SqlSafety
  import opened SqlLimit
  import opened SqlExecute

  /** What the lemmas need of the two lines. */
  predicate ProbeLines(b: string, w: string)
  {
    StartsWith(b, Fence) && '\n' !in b &&
    w != [] && '\n' !in w && !StartsWith(w, Fence) && !IsSpace(w[0]) && !IsSpace(w[|w| - 1])
  }

  /** The lines of a text made of two lines without breaks. */
  lemma TwoLines(a: string, b: string)
    requires a != [] && '\n' !in a && b != [] && '\n' !in b
    ensures SplitLines(a + "\n" + b) == [a, b]
  {
    SplitLinesAppend(a, b);
    assert SplitLines(a) == [a];
    assert SplitLines(b) == [b];
  }

  /** The lines of the probe: the fence line and the two given lines. */
  lemma ThreeLines(b: string, w: string)
    requires ProbeLines(b, w)
    ensures SplitLines(Fence + "\n" + b + "\n" + w) == [Fence, b, w]
  {
    var rest := b + "\n" + w;
    assert Fence + "\n" + b + "\n" + w == Fence + "\n" + rest;
    assert Fence[|Fence| - 1] != '\n' && '\n' !in Fence;
    SplitLinesAppend(Fence, rest);
    assert SplitLines(Fence) == [Fence];
    TwoLines(b, w);
  }

  /** Of the three lines the opening one is dropped; the last does not start with a fence and stays. */
  lemma DropOpeningOnly(b: string, w: string)
    requires ProbeLines(b, w)
    ensures DropFenceLines([Fence, b, w]) == [b, w]
  {
    assert StartsWith(Fence, Fence);
    assert [Fence, b, w][1..] == [b, w];
  }

  /** The probe is trimmed and opens a fence. */
  lemma ProbeIsFenced(b: string, w: string)
    requires ProbeLines(b, w)
    ensures IsStripped(Fence + "\n" + b + "\n" + w) && StartsWith(Fence + "\n" + b + "\n" + w, Fence)
    ensures IsStripped(b + "\n" + w) && StartsWith(b + "\n" + w, Fence)
  {
    var s := Fence + "\n" + b + "\n" + w;
    var t := b + "\n" + w;
    assert s[..3] == Fence && s[0] == '`' && s[|s| - 1] == w[|w| - 1];
    assert t[..3] == b[..3] && t[0] == '`' && t[|t| - 1] == w[|w| - 1];
  }

  /** The first normalisation drops the opening fence line only: the second line starts with a fence but is not the last. */
  lemma UnfenceDropsOpeningLine(b: string, w: string)
    requires ProbeLines(b, w)
    ensures Unfence(Fence + "\n" + b + "\n" + w) == b + "\n" + w
  {
    ProbeIsFenced(b, w);
    ThreeLines(b, w);
    DropOpeningOnly(b, w);
    UnfenceOfFenced(Fence + "\n" + b + "\n" + w);
    assert Join("\n", [b, w]) == b + "\n" + w;
    StripUnchanged(b + "\n" + w);
  }

  /** The second normalisation drops the remaining line, since it now starts the text with a fence. */
  lemma UnfenceDropsGluedLine(b: string, w: string)
    requires ProbeLines(b, w)
    ensures Unfence(b + "\n" + w) == w
  {
    ProbeIsFenced(b, w);
    UnfenceOfFenced(b + "\n" + w);
    TwoLines(b, w);
    assert DropFenceLines([b, w]) == [w];
    StripUnchanged(w);
  }

  /** Without a whole-word SELECT, the first normalisation only peels the opening fence line. */
  lemma ProbeNormalisedOnce(b: string, w: string)
    requires ProbeLines(b, w)
    requires forall k | 0 <= k <= |b + "\n" + w| :: !WholeWordSelectAt(b + "\n" + w, k)
    ensures NormalizeSql(Fence + "\n" + b + "\n" + w) == b + "\n" + w
  {
    UnfenceDropsOpeningLine(b, w);
    NormalizeWithoutSelect(Fence + "\n" + b + "\n" + w);
  }

  /** Without a whole-word SELECT, the second normalisation peels the line that now opens the text. */
  lemma ProbeNormalisedTwice(b: string, w: string)
    requires ProbeLines(b, w)
    requires forall k | 0 <= k <= |w| :: !WholeWordSelectAt(w, k)
    ensures NormalizeSql(b + "\n" + w) == w
  {
    UnfenceDropsGluedLine(b, w);
    NormalizeWithoutSelect(b + "\n" + w);
  }

  /** The decision as written, once the two normalisations and the safety of the second are known. */
  lemma GateAsWrittenOn(probe: string, once: string, twice: string, jwt: string)
    requires jwt != "" && NormalizeSql(probe) == once && NormalizeSql(once) == twice && SafeStatement(twice)
    ensures GateAsWritten(probe, jwt) == Submit(Limited(once))
  {
  }

  /** The corrected decision, once the first normalisation and its unsafety are known. */
  lemma GateOn(probe: string, once: string, jwt: string)
    requires jwt != "" && NormalizeSql(probe) == once && !SafeStatement(once)
    ensures Gate(probe, jwt) == Rejected(RejectedNote)
  {
  }

  /** The concrete lines meet the shape. */
  lemma ConcreteLines(b: string, w: string)
    requires b == "```DROP" && w == "SELECTa"
    ensures ProbeLines(b, w)
  {
    assert b[..3] == Fence;
    NoFenceWithoutBacktick(w);
  }

  /** The only SELECT of the concrete text runs straight into `a`. */
  lemma ConcreteNoWholeWordSelect(b: string, w: string)
    requires b == "```DROP" && w == "SELECTa"
    ensures forall k | 0 <= k <= |b + "\n" + w| :: !WholeWordSelectAt(b + "\n" + w, k)
    ensures forall k | 0 <= k <= |w| :: !WholeWordSelectAt(w, k)
  {
    var s := b + "\n" + w;
    assert s == "```DROP\nSELECTa";
    forall k | 0 <= k <= |s|
      ensures !WholeWordSelectAt(s, k)
    {
      if k != 8 && k + 6 <= |s| {
        assert UpperChar(s[k]) != 'S';
      }
    }
    forall k | 0 <= k <= |w|
      ensures !WholeWordSelectAt(w, k)
    {
      if k != 0 && k + 6 <= |w| {
        assert UpperChar(w[k]) != 'S';
      }
    }
  }

  /** "SELECTA" holds none of the forbidden keywords: each has a letter it lacks. */
  lemma SelectAKeywordFree(u: string)
    requires u == "SELECTA"
    ensures forall k | 0 <= k < |Forbidden| :: !Contains(u, Forbidden[k])
  {
    forall k | 0 <= k < |Forbidden|
      ensures !Contains(u, Forbidden[k])
    {
      var c := if k == 0 then 'I'
        else if k == 1 then 'U'
        else if k == 2 || k == 5 then 'D'
        else if k == 3 then 'M'
        else if k == 4 || k == 6 || k == 7 then 'R'
        else 'X';
      assert c in Forbidden[k];
      MissingCharNotContained(u, Forbidden[k], c);
    }
  }

  /** The safety test in terms of its three facts. */
  lemma SafeFromFacts(w: string)
    requires IsStripped(w) && StartsWith(Upper(w), "SELECT")
    requires forall k | 0 <= k < |Forbidden| :: !Contains(Upper(w), Forbidden[k])
    ensures SafeStatement(w)
  {
    UpperKeepsStripped(w);
  }

  /** The twice-normalised text passes the safety test. */
  lemma ConcreteLastLineSafe(w: string)
    requires w == "SELECTa"
    ensures SafeStatement(w)
  {
    assert IsStripped(w);
    assert Upper(w) == "SELECTA";
    SelectAKeywordFree(Upper(w));
    assert Upper(w)[..6] == "SELECT";
    SafeFromFacts(w);
  }

  /** The once-normalised text fails it: it starts with a backtick. */
  lemma FencedTextUnsafe(t: string)
    requires IsStripped(t) && t != [] && t[0] == '`'
    ensures !SafeStatement(t)
  {
    UpperKeepsStripped(t);
    assert Upper(t)[0] == '`';
  }

  /** The statement sent for a trimmed text that ends in neither a space nor a semicolon begins with that text. */
  lemma SubmissionExtendsText(t: string)
    requires t != [] && IsStripped(t) && t[|t| - 1] != ';'
    ensures |t| <= |Limited(t)| && Limited(t)[..|t|] == t
  {
    StripUnchanged(t);
    RStripCharsUnchanged(t, Semicolons);
    assert LimitCore(t) == t;
    LimitedShape(t);
  }

  /** Normalisation is not idempotent on the probe. */
  lemma NormalizeNotIdempotent(b: string, w: string)
    requires b == "```DROP" && w == "SELECTa"
    ensures NormalizeSql(NormalizeSql(Fence + "\n" + b + "\n" + w)) != NormalizeSql(Fence + "\n" + b + "\n" + w)
  {
    ConcreteLines(b, w);
    ConcreteNoWholeWordSelect(b, w);
    ProbeNormalisedOnce(b, w);
    ProbeNormalisedTwice(b, w);
    assert (b + "\n" + w)[0] == '`' && w[0] == 'S';
  }

  /** Either shape of a statement built from a fenced text keeps its backtick, its DROP and its trimmed ends. */
  lemma ShapeHoldsDrop(once: string, st: string)
    requires IsStripped(once) && once != [] && once[0] == '`'
    requires |once| >= 7 && once[3..7] == "DROP"
    requires st == once || st == once + DefaultLimit
    ensures Contains(st, "DROP") && !SafeSubmission(st)
  {
    assert st[0] == '`' && st[3..7] == once[3..7];
    assert OccursAt(st, "DROP", 3);
    assert !IsSpace(st[|st| - 1]) by {
      if st != once {
        assert st[|st| - 1] == '0';
      }
    }
    FencedTextUnsafe(st);
  }

  /** The statement sent for the once-normalised text holds the DROP of its second line and fails the test. */
  lemma SubmissionHoldsDrop(once: string)
    requires IsStripped(once) && once != [] && once[0] == '`' && once[|once| - 1] != ';'
    requires |once| >= 7 && once[3..7] == "DROP"
    ensures Contains(Limited(once), "DROP") && !SafeSubmission(Limited(once))
  {
    StripUnchanged(once);
    RStripCharsUnchanged(once, Semicolons);
    assert LimitCore(once) == once;
    LimitedShape(once);
    ShapeHoldsDrop(once, Limited(once));
  }

  /**
   * For any probe of this shape whose last line passes the test: the gate as
   * written submits the once-normalised text with its limit, and the
   * corrected gate rejects the probe.
   */
  lemma ProbeDecisions(b: string, w: string, jwt: string)
    requires ProbeLines(b, w) && jwt != ""
    requires forall k | 0 <= k <= |b + "\n" + w| :: !WholeWordSelectAt(b + "\n" + w, k)
    requires forall k | 0 <= k <= |w| :: !WholeWordSelectAt(w, k)
    requires SafeStatement(w)
    ensures GateAsWritten(Fence + "\n" + b + "\n" + w, jwt) == Submit(Limited(b + "\n" + w))
    ensures Gate(Fence + "\n" + b + "\n" + w, jwt) == Rejected(RejectedNote)
  {
    var probe := Fence + "\n" + b + "\n" + w;
    var once := b + "\n" + w;
    ProbeIsFenced(b, w);
    assert once[0] == '`';
    FencedTextUnsafe(once);
    ProbeNormalisedOnce(b, w);
    ProbeNormalisedTwice(b, w);
    GateAsWrittenOn(probe, once, w, jwt);
    GateOn(probe, once, jwt);
  }

  /** The once-normalised concrete text: trimmed, fenced, ending in `a`, with DROP at 3. */
  lemma ConcreteOnce(b: string, w: string, once: string)
    requires b == "```DROP" && w == "SELECTa" && once == b + "\n" + w
    ensures IsStripped(once) && once != [] && once[0] == '`' && once[|once| - 1] != ';'
    ensures |once| >= 7 && once[3..7] == "DROP"
  {
    assert once == "```DROP\nSELECTa";
  }

  /**
   * As written, a request with a token and the probe passes the safety test
   * and sends the RPC a statement that contains DROP and fails that test;
   * the corrected gate rejects the probe.
   */
  lemma AsWrittenGateSubmitsDrop(b: string, w: string, jwt: string)
    requires b == "```DROP" && w == "SELECTa" && jwt != ""
    ensures GateAsWritten(Fence + "\n" + b + "\n" + w, jwt).Submit?
    ensures Contains(GateAsWritten(Fence + "\n" + b + "\n" + w, jwt).statement, "DROP")
    ensures !SafeSubmission(GateAsWritten(Fence + "\n" + b + "\n" + w, jwt).statement)
    ensures Gate(Fence + "\n" + b + "\n" + w, jwt) == Rejected(RejectedNote)
  {
    ConcreteLines(b, w);
    ConcreteNoWholeWordSelect(b, w);
    ConcreteLastLineSafe(w);
    ConcreteOnce(b, w, b + "\n" + w);
    SubmissionHoldsDrop(b + "\n" + w);
    ProbeDecisions(b, w, jwt);
  }
}
