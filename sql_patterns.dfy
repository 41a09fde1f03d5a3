/**
 * The three regular expressions of the search service, written out as
 * character predicates: `\bSELECT\b` (normalisation), `select\b.*?;`
 * (fallback extraction) and `\bLIMIT\s+\d+\b` (row limit), all matched
 * case-insensitively on ASCII.
 */
module SqlPatterns {
  import opened Wrappers
  import opened PyStr

  /** The six letters of SELECT, in either case, at `i`. */
  predicate SelectLettersAt(s: string, i: int)
  {
    0 <= i && i + 6 <= |s| &&
    UpperChar(s[i]) == 'S' && UpperChar(s[i + 1]) == 'E' && UpperChar(s[i + 2]) == 'L' &&
    UpperChar(s[i + 3]) == 'E' && UpperChar(s[i + 4]) == 'C' && UpperChar(s[i + 5]) == 'T'
  }

  /** The five letters of LIMIT, in either case, at `i`. */
  predicate LimitLettersAt(s: string, i: int)
  {
    0 <= i && i + 5 <= |s| &&
    UpperChar(s[i]) == 'L' && UpperChar(s[i + 1]) == 'I' && UpperChar(s[i + 2]) == 'M' &&
    UpperChar(s[i + 3]) == 'I' && UpperChar(s[i + 4]) == 'T'
  }

  /** `select\b` at `i`, case-insensitively; nothing is demanded of the character before it. */
  predicate SelectThenBoundary(s: string, i: int)
  {
    SelectLettersAt(s, i) && (i + 6 == |s| || !IsWordChar(s[i + 6]))
  }

  /** `\bSELECT\b` at `i`, case-insensitively. */
  predicate WholeWordSelectAt(s: string, i: int)
  {
    SelectThenBoundary(s, i) && (i == 0 || !IsWordChar(s[i - 1]))
  }

  /**
   * The leftmost whole-word SELECT at or after `from`; from 0 it is where
   * `re.search(r"\bSELECT\b", s, re.IGNORECASE)` matches.
   */
  function FirstWholeWordSelect(s: string, from: nat): (r: Option<nat>)
    requires from <= |s|
    ensures r.Some? ==> from <= r.value <= |s| && WholeWordSelectAt(s, r.value)
    ensures r.Some? ==> forall k :: from <= k < r.value ==> !WholeWordSelectAt(s, k)
    ensures r.None? ==> forall k :: from <= k <= |s| ==> !WholeWordSelectAt(s, k)
    decreases |s| - from
  {
    if WholeWordSelectAt(s, from) then Some(from)
    else if from == |s| then None
    else FirstWholeWordSelect(s, from + 1)
  }

  /** The leftmost `select\b` at or after `from`. */
  function FirstSelectThenBoundary(s: string, from: nat): (r: Option<nat>)
    requires from <= |s|
    ensures r.Some? ==> from <= r.value <= |s| && SelectThenBoundary(s, r.value)
    decreases |s| - from
  {
    if SelectThenBoundary(s, from) then Some(from)
    else if from == |s| then None
    else FirstSelectThenBoundary(s, from + 1)
  }

  /** No `select\b` lies before the one the scan reports, nor anywhere after `from` when it reports none. */
  lemma {:induction false} FirstSelectSkips(s: string, from: nat, k: nat)
    requires from <= k <= |s|
    requires FirstSelectThenBoundary(s, from).Some? ==> k < FirstSelectThenBoundary(s, from).value
    ensures !SelectThenBoundary(s, k)
    decreases k - from
  {
    if k > from {
      FirstSelectSkips(s, from + 1, k);
    }
  }

  /** A `select\b` with none before it is the one the scan reports. */
  lemma {:induction false} FirstSelectIs(s: string, from: nat, i: nat)
    requires from <= i && SelectThenBoundary(s, i) && forall k | from <= k < i :: !SelectThenBoundary(s, k)
    ensures FirstSelectThenBoundary(s, from) == Some(i)
    decreases i - from
  {
    if from < i {
      FirstSelectIs(s, from + 1, i);
    }
  }

  /** The first index at or after `from` that holds `c`. */
  function FirstCharFrom(s: string, c: char, from: nat): (r: Option<nat>)
    requires from <= |s|
    ensures r.Some? ==> from <= r.value < |s| && s[r.value] == c
    decreases |s| - from
  {
    if from == |s| then None
    else if s[from] == c then Some(from)
    else FirstCharFrom(s, c, from + 1)
  }

  /** No `c` lies before the one the scan reports, nor anywhere after `from` when it reports none. */
  lemma {:induction false} FirstCharSkips(s: string, c: char, from: nat, k: nat)
    requires from <= k < |s|
    requires FirstCharFrom(s, c, from).Some? ==> k < FirstCharFrom(s, c, from).value
    ensures s[k] != c
    decreases k - from
  {
    if k > from {
      FirstCharSkips(s, c, from + 1, k);
    }
  }

  /** A `c` with none before it is the one the scan reports. */
  lemma {:induction false} FirstCharIs(s: string, c: char, from: nat, j: nat)
    requires from <= j < |s| && s[j] == c && forall k | from <= k < j :: s[k] != c
    ensures FirstCharFrom(s, c, from) == Some(j)
    decreases j - from
  {
    if from < j {
      FirstCharIs(s, c, from + 1, j);
    }
  }

  /** The end of the longest run of `cls` characters that starts at `i`. */
  function RunEnd(s: string, i: nat, cls: set<char>): (j: nat)
    requires i <= |s|
    ensures i <= j <= |s|
    ensures forall k :: i <= k < j ==> s[k] in cls
    ensures j == |s| || s[j] !in cls
    decreases |s| - i
  {
    if i < |s| && s[i] in cls then RunEnd(s, i + 1, cls) else i
  }

  /** The run end is the only index with those two properties. */
  lemma RunEndUnique(s: string, i: nat, cls: set<char>, j: nat)
    requires i <= j <= |s|
    requires forall k :: i <= k < j ==> s[k] in cls
    requires j == |s| || s[j] !in cls
    ensures RunEnd(s, i, cls) == j
  {
  }

  /**
   * `\bLIMIT\s+\d+\b` at `p`, case-insensitively. The whitespace run must
   * be taken whole (a digit has to follow it), and the digit run too (a
   * shorter one ends between two word characters), so the match is
   * decided by the two maximal runs.
   */
  predicate LimitAt(s: string, p: int)
    ensures LimitAt(s, p) ==> 0 <= p && p + 7 <= |s|
  {
    LimitLettersAt(s, p) &&
    (p == 0 || !IsWordChar(s[p - 1])) &&
    var j := RunEnd(s, p + 5, Whitespace);
    j > p + 5 &&
    var k := RunEnd(s, j, Digits);
    k > j && (k == |s| || !IsWordChar(s[k]))
  }

  /** Every character from `a` up to `b` is in `cls`. */
  predicate AllIn(s: string, a: int, b: int, cls: set<char>)
  {
    0 <= a <= b <= |s| && forall i | a <= i < b :: s[i] in cls
  }

  /**
   * The backtracking reading of `\bLIMIT\s+\d+\b` at `p`: the letters after
   * a boundary, then SOME non-empty whitespace run, then SOME non-empty digit
   * run, then a boundary.
   */
  predicate LimitMatchAt(s: string, p: int)
  {
    LimitLettersAt(s, p) && (p == 0 || !IsWordChar(s[p - 1])) &&
    exists j, k | p + 5 < j < k <= |s| ::
      AllIn(s, p + 5, j, Whitespace) && AllIn(s, j, k, Digits) && (k == |s| || !IsWordChar(s[k]))
  }

  /** Taking the two maximal runs decides the match: `LimitAt` is the backtracking reading. */
  lemma LimitAtIsMatch(s: string, p: int)
    ensures LimitAt(s, p) <==> LimitMatchAt(s, p)
  {
    if LimitAt(s, p) {
      var j := RunEnd(s, p + 5, Whitespace);
      var k := RunEnd(s, j, Digits);
      assert AllIn(s, p + 5, j, Whitespace) && AllIn(s, j, k, Digits);
    }
    if LimitMatchAt(s, p) {
      var j, k :| p + 5 < j < k <= |s| &&
        AllIn(s, p + 5, j, Whitespace) && AllIn(s, j, k, Digits) && (k == |s| || !IsWordChar(s[k]));
      assert s[j] in Digits;
      RunEndUnique(s, p + 5, Whitespace, j);
      RunEndUnique(s, j, Digits, k);
    }
  }

  /** `re.search(r"\bLIMIT\s+\d+\b", s, flags=re.IGNORECASE)` finds a match. */
  predicate HasLimit(s: string)
    ensures HasLimit(s) ==> |s| >= 7
  {
    exists p | 0 <= p <= |s| :: LimitAt(s, p)
  }

  /** `re.search` finds the pattern exactly when some position holds its backtracking match. */
  lemma HasLimitIsSearch(s: string)
    ensures HasLimit(s) <==> exists p | 0 <= p <= |s| :: LimitMatchAt(s, p)
  {
    forall p | 0 <= p <= |s|
      ensures LimitAt(s, p) <==> LimitMatchAt(s, p)
    {
      LimitAtIsMatch(s, p);
    }
  }
}
