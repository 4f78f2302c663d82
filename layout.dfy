/** The onboarding page layout: which of the three profile components is
    shown on page 2 and which on page 3 of the wizard. A valid layout is a
    partition of the three components into two non-empty pages. */
module Layout {

  const AboutMe := "about_me"
  const Address := "address"
  const Birthdate := "birthdate"

  /** The component types the server accepts. */
  const ValidTypes: seq<string> := [AboutMe, Address, Birthdate]

  /** The three component types are different strings. */
  lemma ComponentNamesDiffer()
    ensures AboutMe != Address && AboutMe != Birthdate && Address != Birthdate
  {
    assert AboutMe[0] == 'a' && Address[0] == 'a' && Birthdate[0] == 'b';
    assert AboutMe[1] == 'b' && Address[1] == 'd';
  }

  /** The two configurable pages, each an ordered list of component types. */
  datatype PageConfig = PageConfig(page2: seq<string>, page3: seq<string>)

  predicate NoRepeats(s: seq<string>) {
    forall i, j :: 0 <= i < j < |s| ==> s[i] != s[j]
  }

  /** Both pages are non-empty, no entry appears twice (on one page or
      across the two), and together they hold exactly the given types. */
  predicate PartitionOf(c: PageConfig, types: seq<string>) {
    |c.page2| > 0 && |c.page3| > 0 &&
    NoRepeats(c.page2 + c.page3) &&
    (forall x | x in c.page2 + c.page3 :: x in types) &&
    (forall x | x in types :: x in c.page2 + c.page3)
  }

  /** A layout splits the three component types between the two pages. */
  predicate ValidLayout(c: PageConfig) {
    PartitionOf(c, ValidTypes)
  }

  /** The elements of a list, as a set (`new Set(list)`). */
  function ElemSet(s: seq<string>): (r: set<string>)
    ensures forall x :: x in r <==> x in s
    ensures |r| <= |s|
  {
    if |s| == 0 then {}
    else
      var front := ElemSet(s[..|s| - 1]);
      assert forall x :: x in s <==> x in s[..|s| - 1] || x == s[|s| - 1] by {
        assert s == s[..|s| - 1] + [s[|s| - 1]];
      }
      front + {s[|s| - 1]}
  }

  /** A list has as many distinct elements as entries exactly when it has no repeats. */
  lemma {:induction false} ElemSetSizeIsLength(s: seq<string>)
    ensures |ElemSet(s)| == |s| <==> NoRepeats(s)
  {
    if |s| > 0 {
      var front := s[..|s| - 1];
      var last := s[|s| - 1];
      ElemSetSizeIsLength(front);
      assert ElemSet(s) == ElemSet(front) + {last};
      if last in front {
        assert ElemSet(s) == ElemSet(front);
        LastRepeats(s);
      } else {
        assert |ElemSet(s)| == |ElemSet(front)| + 1;
        NoRepeatsSnoc(front, last);
        assert front + [last] == s;
      }
    }
  }

  /** A list whose last element occurs earlier has a repeat. */
  lemma LastRepeats(s: seq<string>)
    requires |s| > 0 && s[|s| - 1] in s[..|s| - 1]
    ensures !NoRepeats(s)
  {
    var i :| 0 <= i < |s| - 1 && s[..|s| - 1][i] == s[|s| - 1];
    assert s[i] == s[|s| - 1];
  }

  /** Appending a new element keeps a list without repeats, and only then. */
  lemma NoRepeatsSnoc(s: seq<string>, x: string)
    requires x !in s
    ensures NoRepeats(s + [x]) <==> NoRepeats(s)
  {
    var t := s + [x];
    if NoRepeats(s) {
      forall i, j | 0 <= i < j < |t| ensures t[i] != t[j] {
        assert t[i] == s[i];
        if j < |s| {
          assert t[j] == s[j];
        }
      }
    } else {
      var i, j :| 0 <= i < j < |s| && s[i] == s[j];
      assert t[i] == t[j];
    }
  }

  /** `list.filter(c => c !== x)`. */
  function Remove(s: seq<string>, x: string): (r: seq<string>)
    ensures forall y :: y in r <==> y in s && y != x
    ensures |r| <= |s|
  {
    if |s| == 0 then []
    else
      var front := s[..|s| - 1];
      assert s == front + [s[|s| - 1]];
      Remove(front, x) + (if s[|s| - 1] == x then [] else [s[|s| - 1]])
  }

  /** Removal keeps the order of the other elements: it distributes over concatenation. */
  lemma {:induction false} RemoveDistributes(a: seq<string>, b: seq<string>, x: string)
    ensures Remove(a + b, x) == Remove(a, x) + Remove(b, x)
  {
    if |b| == 0 {
      assert a + b == a;
    } else {
      var b' := b[..|b| - 1];
      assert (a + b)[..|a + b| - 1] == a + b';
      RemoveDistributes(a, b', x);
    }
  }

  /** Removing an element that does not occur changes nothing. */
  lemma {:induction false} RemoveAbsent(s: seq<string>, x: string)
    requires x !in s
    ensures Remove(s, x) == s
  {
    if |s| > 0 {
      assert s[..|s| - 1] + [s[|s| - 1]] == s;
      RemoveAbsent(s[..|s| - 1], x);
    }
  }

  /** Removing from a list without repeats leaves a list without repeats. */
  lemma {:induction false} RemoveKeepsNoRepeats(s: seq<string>, x: string)
    requires NoRepeats(s)
    ensures NoRepeats(Remove(s, x))
  {
    if |s| > 0 {
      var front := s[..|s| - 1];
      var last := s[|s| - 1];
      assert NoRepeats(front);
      RemoveKeepsNoRepeats(front, x);
      if last != x {
        var r := Remove(front, x);
        assert last !in r by {
          forall i | 0 <= i < |front| ensures front[i] != last {
            assert s[i] != s[|s| - 1];
          }
        }
        assert NoRepeats(r + [last]) by {
          forall i, j | 0 <= i < j < |r + [last]| ensures (r + [last])[i] != (r + [last])[j] {
            if j == |r| {
              assert (r + [last])[i] == r[i];
            } else {
              assert (r + [last])[i] == r[i] && (r + [last])[j] == r[j];
            }
          }
        }
      }
    }
  }

  /** Two lists without repeats and without a common element concatenate to one without repeats. */
  lemma NoRepeatsConcat(a: seq<string>, b: seq<string>)
    requires NoRepeats(a) && NoRepeats(b) && forall x :: x in a ==> x !in b
    ensures NoRepeats(a + b)
  {
    forall i, j | 0 <= i < j < |a + b| ensures (a + b)[i] != (a + b)[j] {
      if j < |a| {
        assert (a + b)[i] == a[i] && (a + b)[j] == a[j];
      } else if i < |a| {
        assert (a + b)[i] == a[i] && (a + b)[j] == b[j - |a|];
        assert b[j - |a|] in b;
      } else {
        assert (a + b)[i] == b[i - |a|] && (a + b)[j] == b[j - |a|];
      }
    }
  }

  /** The halves of a list without repeats are without repeats and share no element. */
  lemma NoRepeatsSplit(a: seq<string>, b: seq<string>)
    requires NoRepeats(a + b)
    ensures NoRepeats(a) && NoRepeats(b) && forall x :: x in a ==> x !in b
  {
    forall i, j | 0 <= i < j < |a| ensures a[i] != a[j] {
      assert (a + b)[i] == a[i] && (a + b)[j] == a[j];
    }
    forall i, j | 0 <= i < j < |b| ensures b[i] != b[j] {
      assert (a + b)[|a| + i] == b[i] && (a + b)[|a| + j] == b[j];
    }
    forall i, j | 0 <= i < |a| && 0 <= j < |b| ensures a[i] != b[j] {
      assert (a + b)[i] == a[i] && (a + b)[|a| + j] == b[j];
    }
  }
}
