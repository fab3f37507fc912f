/**
 * Strings as sequences of characters: joining with a separator, splitting at
 * a separator character, Java's String.compareTo order and sorting in it.
 */
module Strings {

  /** The elements with sep between consecutive ones (no separator before the first or after the last). */
  function Join(xs: seq<string>, sep: string): (r: string)
    ensures |xs| == 0 ==> r == ""
    ensures |xs| == 1 ==> r == xs[0]
  {
    if |xs| == 0 then ""
    else if |xs| == 1 then xs[0]
    else Join(xs[..|xs| - 1], sep) + sep + xs[|xs| - 1]
  }

  /** The first position of c in s, when there is one. */
  function IndexOf(s: string, c: char): (i: nat)
    requires c in s
    ensures i < |s| && s[i] == c && c !in s[..i]
  {
    if s[0] == c then 0 else IndexOf(s[1..], c) + 1
  }

  /** The pieces of s between occurrences of c: one more piece than there are occurrences. */
  function Split(s: string, c: char): (r: seq<string>)
    ensures |r| > 0
    ensures forall k :: 0 <= k < |r| ==> c !in r[k]
    decreases |s|
  {
    if c !in s then [s]
    else
      var i := IndexOf(s, c);
      [s[..i]] + Split(s[i + 1..], c)
  }

  /** The first c of a + r is the first c of a, when a has one. */
  lemma {:induction false} IndexOfAppend(a: string, r: string, c: char)
    requires c in a
    ensures IndexOf(a + r, c) == IndexOf(a, c)
    decreases |a|
  {
    if a[0] != c {
      assert (a + r)[1..] == a[1..] + r;
      IndexOfAppend(a[1..], r, c);
    }
  }

  /** The first c of a + r lies in r, when a has none. */
  lemma {:induction false} IndexOfSkip(a: string, r: string, c: char)
    requires c !in a && c in r
    ensures IndexOf(a + r, c) == |a| + IndexOf(r, c)
    decreases |a|
  {
    if |a| > 0 {
      assert (a + r)[1..] == a[1..] + r;
      IndexOfSkip(a[1..], r, c);
    } else {
      assert a + r == r;
    }
  }

  /** Splitting at a separator that does not occur in the last piece splits the rest and keeps the last piece whole. */
  lemma {:induction false} SplitLast(a: string, b: string, c: char)
    requires c !in b
    ensures Split(a + [c] + b, c) == Split(a, c) + [b]
    decreases |a|
  {
    var s := a + [c] + b;
    if c !in a {
      IndexOfSkip(a, [c] + b, c);
      assert s == a + ([c] + b);
      assert s[..|a|] == a && s[|a| + 1..] == b;
    } else {
      var i := IndexOf(a, c);
      IndexOfAppend(a, [c] + b, c);
      assert s == a + ([c] + b);
      assert s[..i] == a[..i];
      assert s[i + 1..] == a[i + 1..] + [c] + b;
      SplitLast(a[i + 1..], b, c);
    }
  }

  /** Joining with a one-character separator and splitting at it gives back the elements, when none contains it. */
  lemma {:induction false} SplitJoin(xs: seq<string>, c: char)
    requires |xs| > 0
    requires forall k :: 0 <= k < |xs| ==> c !in xs[k]
    ensures Split(Join(xs, [c]), c) == xs
  {
    if |xs| == 1 {
      assert Join(xs, [c]) == xs[0];
    } else {
      var init := xs[..|xs| - 1];
      assert forall k :: 0 <= k < |init| ==> c !in init[k] by {
        forall k | 0 <= k < |init| ensures c !in init[k] {
          assert init[k] == xs[k];
        }
      }
      SplitJoin(init, c);
      SplitLast(Join(init, [c]), xs[|xs| - 1], c);
      assert init + [xs[|xs| - 1]] == xs;
    }
  }

  /** Java's String.compareTo(a, b) < 0: the first differing character decides, else the shorter string is less. */
  predicate LexLess(a: string, b: string)
    decreases |a|
  {
    if |a| == 0 then |b| > 0
    else if |b| == 0 then false
    else a[0] < b[0] || (a[0] == b[0] && LexLess(a[1..], b[1..]))
  }

  lemma {:induction false} LexLessIrreflexive(a: string)
    ensures !LexLess(a, a)
    decreases |a|
  {
    if |a| > 0 {
      LexLessIrreflexive(a[1..]);
    }
  }

  lemma {:induction false} LexLessAsymmetric(a: string, b: string)
    requires LexLess(a, b)
    ensures !LexLess(b, a)
    decreases |a|
  {
    if |a| > 0 && |b| > 0 && a[0] == b[0] {
      LexLessAsymmetric(a[1..], b[1..]);
    }
  }

  lemma {:induction false} LexLessTransitive(a: string, b: string, c: string)
    requires LexLess(a, b) && LexLess(b, c)
    ensures LexLess(a, c)
    decreases |a|
  {
    if |a| > 0 && a[0] == b[0] && b[0] == c[0] {
      LexLessTransitive(a[1..], b[1..], c[1..]);
    }
  }

  /** Two different strings are always ordered one way or the other. */
  lemma {:induction false} LexLessTotal(a: string, b: string)
    requires a != b
    ensures LexLess(a, b) || LexLess(b, a)
    decreases |a|
  {
    if |a| > 0 && |b| > 0 && a[0] == b[0] {
      assert a == [a[0]] + a[1..] && b == [b[0]] + b[1..];
      LexLessTotal(a[1..], b[1..]);
    }
  }

  /** Every element is less than every later one. */
  predicate StrictlySorted(s: seq<string>)
  {
    forall i, j :: 0 <= i < j < |s| ==> LexLess(s[i], s[j])
  }

  /** Inserts x before the first element that is not less than it. */
  function Insert(x: string, s: seq<string>): (r: seq<string>)
    ensures multiset(r) == multiset(s) + multiset{x}
  {
    if |s| == 0 then [x]
    else if LexLess(s[0], x) then
      assert s == [s[0]] + s[1..];
      [s[0]] + Insert(x, s[1..])
    else [x] + s
  }

  /** Insertion sort in the compareTo order (what Arrays.sort does to an array of strings). */
  function Sort(s: seq<string>): (r: seq<string>)
    ensures multiset(r) == multiset(s)
  {
    if |s| == 0 then []
    else
      assert s == [s[0]] + s[1..];
      Insert(s[0], Sort(s[1..]))
  }

  /** Inserting into a strictly sorted list that lacks x keeps it strictly sorted. */
  lemma {:induction false} InsertSorted(x: string, s: seq<string>)
    requires StrictlySorted(s) && x !in s
    ensures StrictlySorted(Insert(x, s))
    decreases |s|
  {
    if |s| == 0 {
    } else if LexLess(s[0], x) {
      var t := s[1..];
      TailSorted(s);
      assert x !in t by {
        assert forall k :: 0 <= k < |t| ==> t[k] == s[k + 1];
      }
      InsertSorted(x, t);
      forall k | 0 <= k < |t| ensures LexLess(s[0], t[k]) {
        assert t[k] == s[k + 1];
      }
      InsertAbove(s[0], x, t);
      ConsSorted(s[0], Insert(x, t));
    } else {
      assert x != s[0];
      LexLessTotal(x, s[0]);
      forall j | 0 <= j < |s| ensures LexLess(x, s[j]) {
        if j > 0 {
          LexLessTransitive(x, s[0], s[j]);
        }
      }
      ConsSorted(x, s);
    }
  }

  /** Dropping the first element keeps a list strictly sorted. */
  lemma TailSorted(s: seq<string>)
    requires |s| > 0 && StrictlySorted(s)
    ensures StrictlySorted(s[1..])
  {
    var t := s[1..];
    forall i, j | 0 <= i < j < |t| ensures LexLess(t[i], t[j]) {
      assert t[i] == s[i + 1] && t[j] == s[j + 1];
    }
  }

  /** A head less than every element of a strictly sorted list keeps it strictly sorted. */
  lemma ConsSorted(h: string, u: seq<string>)
    requires StrictlySorted(u)
    requires forall j :: 0 <= j < |u| ==> LexLess(h, u[j])
    ensures StrictlySorted([h] + u)
  {
    var r := [h] + u;
    forall i, j | 0 <= i < j < |r| ensures LexLess(r[i], r[j]) {
      if i == 0 {
        assert r[j] == u[j - 1];
      } else {
        assert r[i] == u[i - 1] && r[j] == u[j - 1];
      }
    }
  }

  /** What is below x and below every element of t is below every element of Insert(x, t). */
  lemma InsertAbove(h: string, x: string, t: seq<string>)
    requires LexLess(h, x)
    requires forall k :: 0 <= k < |t| ==> LexLess(h, t[k])
    ensures forall j :: 0 <= j < |Insert(x, t)| ==> LexLess(h, Insert(x, t)[j])
  {
    var u := Insert(x, t);
    forall j | 0 <= j < |u| ensures LexLess(h, u[j]) {
      assert u[j] in multiset(u);
      if u[j] != x {
        assert u[j] in multiset(t);
        var k :| 0 <= k < |t| && t[k] == u[j];
      }
    }
  }

  /** No element occurs twice. */
  predicate Distinct(s: seq<string>)
  {
    forall i, j :: 0 <= i < j < |s| ==> s[i] != s[j]
  }

  /** Sorting distinct strings puts them in strictly ascending order. */
  lemma {:induction false} SortStrictlySorted(s: seq<string>)
    requires Distinct(s)
    ensures StrictlySorted(Sort(s))
    decreases |s|
  {
    if |s| > 0 {
      var t := s[1..];
      assert Distinct(t) by {
        forall i, j | 0 <= i < j < |t| ensures t[i] != t[j] {
          assert t[i] == s[i + 1] && t[j] == s[j + 1];
        }
      }
      SortStrictlySorted(t);
      assert s[0] !in t by {
        assert forall k :: 0 <= k < |t| ==> t[k] == s[k + 1];
      }
      assert s[0] !in Sort(t) by {
        assert multiset(Sort(t)) == multiset(t);
        assert s[0] !in multiset(t);
      }
      InsertSorted(s[0], Sort(t));
    }
  }
}
