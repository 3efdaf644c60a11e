/** Python's ordering of `str` values (code point by code point, a proper
    prefix first) and the duplicate-free sorted sequence `sorted(set)` yields. */
module Ordering {

  /** Python's `a < b` on strings. */
  predicate LexLess(a: string, b: string)
    decreases |a|
  {
    if |a| == 0 then |b| > 0
    else if |b| == 0 then false
    else if a[0] != b[0] then a[0] < b[0]
    else LexLess(a[1..], b[1..])
  }

  lemma {:induction false} LexLessIrreflexive(a: string)
    ensures !LexLess(a, a)
    decreases |a|
  {
    if |a| > 0 {
      LexLessIrreflexive(a[1..]);
    }
  }

  lemma {:induction false} LexLessTransitive(a: string, b: string, c: string)
    requires LexLess(a, b) && LexLess(b, c)
    ensures LexLess(a, c)
    decreases |a|
  {
    if |a| > 0 && a[0] == b[0] && b[0] == c[0] {
      LexLessTransitive(a[1..], b[1..], c[1..]);
    }
  }

  lemma {:induction false} LexLessTotal(a: string, b: string)
    ensures a == b || LexLess(a, b) || LexLess(b, a)
    decreases |a|
  {
    if |a| > 0 && |b| > 0 && a[0] == b[0] {
      LexLessTotal(a[1..], b[1..]);
      if a[1..] == b[1..] {
        assert a == [a[0]] + a[1..] && b == [b[0]] + b[1..];
      }
    }
  }

  /** Every element precedes every later one, so no element repeats. */
  predicate StrictlySorted(s: seq<string>) {
    forall i, j :: 0 <= i < j < |s| ==> LexLess(s[i], s[j])
  }

  function Elements(s: seq<string>): set<string> {
    set x | x in s
  }

  /** A strictly sorted sequence has no repeats, so it has as many elements as its set. */
  lemma {:induction false} SortedElementsCount(s: seq<string>)
    requires StrictlySorted(s)
    ensures |Elements(s)| == |s|
    decreases |s|
  {
    if |s| > 0 {
      var rest := s[1..];
      SortedTail(s);
      SortedElementsCount(rest);
      assert s[0] !in Elements(rest) by {
        if s[0] in rest {
          var j :| 0 <= j < |rest| && rest[j] == s[0];
          assert LexLess(s[0], s[j + 1]);
          LexLessIrreflexive(s[0]);
        }
      }
      ElementsCons(s[0], rest);
      assert s == [s[0]] + rest;
    }
  }

  lemma ElementsEmpty(s: seq<string>)
    ensures Elements(s) == {} <==> s == []
  {
    if s != [] {
      assert s[0] in Elements(s);
    }
  }

  /** Adds `x` to a sorted, duplicate-free sequence unless it is already there. */
  function InsertSorted(s: seq<string>, x: string): seq<string>
    decreases |s|
  {
    if |s| == 0 then [x]
    else if s[0] == x then s
    else if LexLess(x, s[0]) then [x] + s
    else [s[0]] + InsertSorted(s[1..], x)
  }

  lemma {:induction false} InsertSortedCorrect(s: seq<string>, x: string)
    requires StrictlySorted(s)
    ensures StrictlySorted(InsertSorted(s, x))
    ensures Elements(InsertSorted(s, x)) == Elements(s) + {x}
    decreases |s|
  {
    if |s| == 0 {
    } else if s[0] == x {
    } else if LexLess(x, s[0]) {
      forall k | 0 <= k < |s| ensures LexLess(x, s[k]) {
        if k > 0 {
          LexLessTransitive(x, s[0], s[k]);
        }
      }
      SortedCons(x, s);
      ElementsCons(x, s);
    } else {
      var rest := s[1..];
      SortedTail(s);
      InsertSortedCorrect(rest, x);
      LexLessTotal(x, s[0]);
      var t := InsertSorted(rest, x);
      forall k | 0 <= k < |t| ensures LexLess(s[0], t[k]) {
        assert t[k] in Elements(t);
        if t[k] != x {
          var m :| 0 <= m < |rest| && rest[m] == t[k];
          assert s[m + 1] == t[k];
        }
      }
      SortedCons(s[0], t);
      ElementsCons(s[0], t);
      ElementsCons(s[0], rest);
      assert s == [s[0]] + rest;
    }
  }

  /** An element below everything in a sorted sequence can go in front of it. */
  lemma SortedCons(x: string, s: seq<string>)
    requires StrictlySorted(s)
    requires forall k :: 0 <= k < |s| ==> LexLess(x, s[k])
    ensures StrictlySorted([x] + s)
  {
    var r := [x] + s;
    forall i, j | 0 <= i < j < |r| ensures LexLess(r[i], r[j]) {
      assert r[j] == s[j - 1];
      if i > 0 {
        assert r[i] == s[i - 1];
      }
    }
  }

  lemma SortedTail(s: seq<string>)
    requires StrictlySorted(s) && |s| > 0
    ensures StrictlySorted(s[1..])
  {
    var rest := s[1..];
    forall i, j | 0 <= i < j < |rest| ensures LexLess(rest[i], rest[j]) {
      assert rest[i] == s[i + 1] && rest[j] == s[j + 1];
    }
  }

  lemma ElementsCons(x: string, s: seq<string>)
    ensures Elements([x] + s) == {x} + Elements(s)
  {
  }

  /** Two sorted, duplicate-free sequences with the same elements are equal:
      such a sequence is determined by its set, as `sorted(set)` is. */
  lemma {:induction false} SortedUnique(a: seq<string>, b: seq<string>)
    requires StrictlySorted(a) && StrictlySorted(b)
    requires Elements(a) == Elements(b)
    ensures a == b
    decreases |a|
  {
    if |a| == 0 {
      ElementsEmpty(b);
    } else {
      assert a[0] in Elements(b);
      assert b != [];
      assert b[0] in Elements(a);
      if a[0] != b[0] {
        var i :| 0 <= i < |a| && a[i] == b[0];
        var j :| 0 <= j < |b| && b[j] == a[0];
        assert i > 0 && j > 0;
        assert LexLess(a[0], a[i]) && LexLess(b[0], b[j]);
        LexLessTransitive(a[0], b[0], a[0]);
        LexLessIrreflexive(a[0]);
      }
      assert Elements(a[1..]) == Elements(a) - {a[0]} by {
        assert a == [a[0]] + a[1..];
        forall k | 0 <= k < |a[1..]| ensures a[1..][k] != a[0] {
          assert LexLess(a[0], a[k + 1]);
          LexLessIrreflexive(a[0]);
        }
      }
      assert Elements(b[1..]) == Elements(b) - {b[0]} by {
        assert b == [b[0]] + b[1..];
        forall k | 0 <= k < |b[1..]| ensures b[1..][k] != b[0] {
          assert LexLess(b[0], b[k + 1]);
          LexLessIrreflexive(b[0]);
        }
      }
      SortedUnique(a[1..], b[1..]);
      assert a == [a[0]] + a[1..] && b == [b[0]] + b[1..];
    }
  }
}
