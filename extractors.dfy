/** The two heuristic feature extractors of the incident detail page:
    the day count of `/(\d{1,3})\s*day/i` and the order value of
    `/\$(\d{1,6})(?:\.(\d{1,2}))?/`, written as dedicated left-to-right
    scanners. Each predicate below states what the regular expression
    accepts; each scanner is proved to find its leftmost match. */
module Extractors {
  import opened Wrappers
  import opened Text

  function Min(a: nat, b: nat): nat {
    if a <= b then a else b
  }

  /** The `len` characters from index `from` are all digits. */
  predicate DigitsAt(s: string, from: nat, len: nat) {
    from + len <= |s| && forall t :: from <= t < from + len ==> IsDigit(s[t])
  }

  /** The characters from index `from` up to (not including) `to` are all white space. */
  predicate SpacesBetween(s: string, from: nat, to: nat) {
    from <= to <= |s| && forall t :: from <= t < to ==> IsSpace(s[t])
  }

  /** "day" in any letter case at index `j` (the regular expression's `i` flag). */
  predicate DayWordAt(s: string, j: nat) {
    j + 3 <= |s| &&
    (s[j] == 'd' || s[j] == 'D') &&
    (s[j + 1] == 'a' || s[j + 1] == 'A') &&
    (s[j + 2] == 'y' || s[j + 2] == 'Y')
  }

  /** `(\d{1,3})\s*day` matches at index `i`, capturing the `k` digits at `i`,
      with "day" starting at index `j`. */
  predicate DayMatch(s: string, i: nat, k: nat, j: nat) {
    1 <= k <= 3 && DigitsAt(s, i, k) && SpacesBetween(s, i + k, j) && DayWordAt(s, j)
  }

  /** Some match of the day pattern starts at index `i`. */
  ghost predicate DayMatchesAt(s: string, i: nat) {
    exists k: nat, j: nat :: DayMatch(s, i, k, j)
  }

  /** Length of the run of digits starting at index `i`. */
  function DigitRun(s: string, i: nat): (n: nat)
    requires i <= |s|
    ensures DigitsAt(s, i, n)
    ensures i + n < |s| ==> !IsDigit(s[i + n])
    decreases |s| - i
  {
    if i < |s| && IsDigit(s[i]) then 1 + DigitRun(s, i + 1) else 0
  }

  /** Every run of digits from `i` is at most as long as the maximal one. */
  lemma {:induction false} DigitRunIsMaximal(s: string, i: nat, k: nat)
    requires i <= |s| && DigitsAt(s, i, k)
    ensures k <= DigitRun(s, i)
    decreases k
  {
    if k > 0 {
      assert IsDigit(s[i]);
      DigitRunIsMaximal(s, i + 1, k - 1);
    }
  }

  /** The first index at or after `i` that is not white space. */
  function SkipSpaces(s: string, i: nat): (j: nat)
    requires i <= |s|
    ensures SpacesBetween(s, i, j)
    ensures j < |s| ==> !IsSpace(s[j])
    decreases |s| - i
  {
    if i < |s| && IsSpace(s[i]) then SkipSpaces(s, i + 1) else i
  }

  lemma {:induction false} SkipSpacesIsMaximal(s: string, i: nat, j: nat)
    requires i <= |s| && SpacesBetween(s, i, j)
    ensures j <= SkipSpaces(s, i)
    decreases j - i
  {
    if i < j {
      SkipSpacesIsMaximal(s, i + 1, j);
    }
  }

  /** A match at `i` has only one shape: backtracking cannot take fewer
      digits or fewer spaces, since neither a digit nor a space is a "d". */
  lemma DayMatchIsGreedy(s: string, i: nat, k: nat, j: nat)
    requires i <= |s| && DayMatch(s, i, k, j)
    ensures k == DigitRun(s, i) && j == SkipSpaces(s, i + k)
  {
    DigitRunIsMaximal(s, i, k);
    if i + k < j {
      assert IsSpace(s[i + k]);
    } else {
      assert i + k == j;
    }
    assert !IsDigit(s[i + k]);
    SkipSpacesIsMaximal(s, i + k, j);
    assert !IsSpace(s[j]);
  }

  /** The day count captured by a match at index `i`, if one starts there. */
  function DaysAt(s: string, i: nat): (r: Option<nat>)
    requires i <= |s|
  {
    var k := DigitRun(s, i);
    var j := SkipSpaces(s, i + k);
    if 1 <= k <= 3 && DayWordAt(s, j) then Some(DigitsValue(s[i..i + k])) else None
  }

  /** `DaysAt` finds a match exactly where one starts, and its capture is the
      number of three digits at most that every match there captures. */
  lemma DaysAtIsMatch(s: string, i: nat)
    requires i <= |s|
    ensures DaysAt(s, i).Some? <==> DayMatchesAt(s, i)
    ensures forall k: nat, j: nat :: DayMatch(s, i, k, j) ==> DaysAt(s, i) == Some(DigitsValue(s[i..i + k]))
    ensures DaysAt(s, i).Some? ==> DaysAt(s, i).value <= 999
  {
    var k := DigitRun(s, i);
    var j := SkipSpaces(s, i + k);
    DayMatchIsUnique(s, i);
    if 1 <= k <= 3 && DayWordAt(s, j) {
      assert DayMatch(s, i, k, j);
      DigitsValueBound(s[i..i + k]);
      Pow10Monotone(k, 3);
      assert Pow10(3) == 1000;
    }
  }

  /** Every match at `i` is the greedy one. */
  lemma DayMatchIsUnique(s: string, i: nat)
    requires i <= |s|
    ensures forall k: nat, j: nat :: DayMatch(s, i, k, j) ==>
              k == DigitRun(s, i) && j == SkipSpaces(s, i + DigitRun(s, i))
  {
    forall k: nat, j: nat | DayMatch(s, i, k, j)
      ensures k == DigitRun(s, i) && j == SkipSpaces(s, i + DigitRun(s, i))
    {
      DayMatchIsGreedy(s, i, k, j);
    }
  }

  /** The first index at or after `i` where the day pattern matches. */
  function FirstDayMatchFrom(s: string, i: nat): (r: Option<nat>)
    requires i <= |s|
    ensures r.Some? ==> i <= r.value <= |s| && DaysAt(s, r.value).Some?
    decreases |s| - i
  {
    if DaysAt(s, i).Some? then Some(i)
    else if i == |s| then None
    else FirstDayMatchFrom(s, i + 1)
  }

  lemma {:induction false} FirstDayMatchFromIsLeftmost(s: string, i: nat)
    requires i <= |s|
    ensures FirstDayMatchFrom(s, i).None? <==> forall i': nat :: i <= i' ==> !DayMatchesAt(s, i')
    ensures FirstDayMatchFrom(s, i).Some? ==>
              forall i': nat :: i <= i' < FirstDayMatchFrom(s, i).value ==> !DayMatchesAt(s, i')
    decreases |s| - i
  {
    DaysAtIsMatch(s, i);
    if DaysAt(s, i).None? {
      if i == |s| {
        assert forall i': nat, k: nat, j: nat :: i <= i' ==> !DayMatch(s, i', k, j);
      } else {
        FirstDayMatchFromIsLeftmost(s, i + 1);
      }
    }
  }

  /** `detectDaysSinceMention`: the number in the first `<digits><spaces>day`
      occurrence, or None when the pattern does not occur. */
  function DetectDaysSinceMention(text: string): (r: Option<nat>) {
    match FirstDayMatchFrom(text, 0)
    case None => None
    case Some(i) => DaysAt(text, i)
  }

  /** The day extractor agrees with the regular expression: no result
      exactly when nothing matches, otherwise the capture of the leftmost
      match, a number below 1000. */
  lemma DetectDaysSinceMentionIsLeftmostMatch(text: string)
    ensures var r := DetectDaysSinceMention(text);
            (r.None? <==> forall i: nat :: !DayMatchesAt(text, i)) &&
            (r.Some? ==> exists i: nat, k: nat, j: nat ::
                           DayMatch(text, i, k, j) && r.value == DigitsValue(text[i..i + k]) &&
                           forall i': nat :: i' < i ==> !DayMatchesAt(text, i')) &&
            (r.Some? ==> r.value <= 999)
  {
    FirstDayMatchFromIsLeftmost(text, 0);
    var first := FirstDayMatchFrom(text, 0);
    if first.Some? {
      var i := first.value;
      DaysAtIsMatch(text, i);
      var k: nat, j: nat :| DayMatch(text, i, k, j);
      var r := DetectDaysSinceMention(text);
      assert r == DaysAt(text, i) == Some(DigitsValue(text[i..i + k]));
      assert forall i': nat :: i' < i ==> !DayMatchesAt(text, i');
      assert DayMatch(text, i, k, j) && r.value == DigitsValue(text[i..i + k]);
    }
  }

  // ---- the pattern /\$(\d{1,6})(?:\.(\d{1,2}))?/ ----

  /** `$` followed by a digit at index `i`: exactly where the order-value pattern can start. */
  predicate DollarAt(s: string, i: nat) {
    i + 1 < |s| && s[i] == '$' && IsDigit(s[i + 1])
  }

  /** The integer digits captured after the `$` at `i`: as many as there are, up to six. */
  function IntDigitsAt(s: string, i: nat): (d: string)
    requires DollarAt(s, i)
    ensures 1 <= |d| <= 6 && i + 1 + |d| <= |s| && d == s[i + 1..i + 1 + |d|]
    ensures forall t :: 0 <= t < |d| ==> IsDigit(d[t])
    ensures |d| == 6 || i + 1 + |d| == |s| || !IsDigit(s[i + 1 + |d|])
  {
    var n := Min(6, DigitRun(s, i + 1));
    s[i + 1..i + 1 + n]
  }

  /** The fraction digits of the optional `.dd` group; empty when the group does not match. */
  function FracDigitsAt(s: string, i: nat): (f: string)
    requires DollarAt(s, i)
    ensures var p := i + 1 + |IntDigitsAt(s, i)|;
      |f| <= 2 &&
      (|f| > 0 <==> p + 1 < |s| && s[p] == '.' && IsDigit(s[p + 1])) &&
      (|f| > 0 ==> p + 1 + |f| <= |s| && f == s[p + 1..p + 1 + |f|] &&
                   (|f| == 2 || p + 1 + |f| == |s| || !IsDigit(s[p + 1 + |f|])))
    ensures forall t :: 0 <= t < |f| ==> IsDigit(f[t])
  {
    var p := i + 1 + |IntDigitsAt(s, i)|;
    if p + 1 < |s| && s[p] == '.' && IsDigit(s[p + 1]) then
      var n := Min(2, DigitRun(s, p + 1));
      s[p + 1..p + 1 + n]
    else
      ""
  }

  /** `parseFloat` of `intDigits` followed, when present, by `.` and `frac`. */
  function DecimalValue(intDigits: string, frac: string): real {
    DigitsValue(intDigits) as real + DigitsValue(frac) as real / Pow10(|frac|) as real
  }

  /** A number of at most six integer digits and a proper fraction stays below one million. */
  lemma DecimalValueBound(intDigits: string, frac: string)
    requires |intDigits| <= 6 && |frac| <= 2
    ensures 0.0 <= DecimalValue(intDigits, frac) < 1000000.0
  {
    DigitsValueBound(intDigits);
    DigitsValueBound(frac);
    Pow10Monotone(|intDigits|, 6);
    assert Pow10(6) == 1000000;
    var b := DigitsValue(frac);
    if |frac| == 0 {
      assert b == 0;
    } else if |frac| == 1 {
      assert Pow10(|frac|) == 10 && b < 10;
    } else {
      assert Pow10(|frac|) == 100 && b < 100;
    }
  }

  /** The amount matched at the `$` at index `i`. */
  function DollarValue(s: string, i: nat): real
    requires DollarAt(s, i)
  {
    DecimalValue(IntDigitsAt(s, i), FracDigitsAt(s, i))
  }

  /** The first index at or after `i` where the order-value pattern can start. */
  function FirstDollarFrom(s: string, i: nat): (r: Option<nat>)
    requires i <= |s|
    ensures r.Some? ==> i <= r.value && DollarAt(s, r.value)
    decreases |s| - i
  {
    if i == |s| then None
    else if DollarAt(s, i) then Some(i)
    else FirstDollarFrom(s, i + 1)
  }

  lemma {:induction false} FirstDollarFromIsLeftmost(s: string, i: nat)
    requires i <= |s|
    ensures FirstDollarFrom(s, i).None? <==> forall i': nat :: i <= i' ==> !DollarAt(s, i')
    ensures FirstDollarFrom(s, i).Some? ==>
              var j := FirstDollarFrom(s, i).value;
              i <= j && DollarAt(s, j) && forall i': nat :: i <= i' < j ==> !DollarAt(s, i')
    decreases |s| - i
  {
    if i < |s| && !DollarAt(s, i) {
      FirstDollarFromIsLeftmost(s, i + 1);
    }
  }

  /** `detectOrderValue`: the amount after the first `$` that is followed by a
      digit, or None when there is no such `$`. */
  function DetectOrderValue(text: string): (r: Option<real>) {
    match FirstDollarFrom(text, 0)
    case None => None
    case Some(i) => Some(DollarValue(text, i))
  }

  /** The order-value extractor agrees with the regular expression: no result
      exactly when no `$` is followed by a digit, otherwise the amount at the
      first such `$`, which is below one million. */
  lemma DetectOrderValueIsLeftmostMatch(text: string)
    ensures var r := DetectOrderValue(text);
            (r.None? <==> forall i: nat :: !DollarAt(text, i)) &&
            (r.Some? ==> exists i: nat :: DollarAt(text, i) &&
                           (forall i': nat :: i' < i ==> !DollarAt(text, i')) &&
                           r.value == DollarValue(text, i)) &&
            (r.Some? ==> 0.0 <= r.value < 1000000.0)
  {
    FirstDollarFromIsLeftmost(text, 0);
    var first := FirstDollarFrom(text, 0);
    if first.Some? {
      var i := first.value;
      DecimalValueBound(IntDigitsAt(text, i), FracDigitsAt(text, i));
      assert DetectOrderValue(text) == Some(DollarValue(text, i));
    }
  }
}
