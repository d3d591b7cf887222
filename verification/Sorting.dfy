/**
 Python's `sorted` as an insertion sort over an arbitrary total order, and the fact every
 content-addressed key of the system relies on: the sorted list is a canonical form of the multiset.
 */
module Sorting {
  ghost predicate TotalOrder<T(!new)>(leq: (T, T) -> bool) {
    && (forall x, y :: leq(x, y) || leq(y, x))
    && (forall x, y :: leq(x, y) && leq(y, x) ==> x == y)
    && (forall x, y, z :: leq(x, y) && leq(y, z) ==> leq(x, z))
  }

  ghost predicate Ascending<T>(leq: (T, T) -> bool, s: seq<T>) {
    forall i, j :: 0 <= i < j < |s| ==> leq(s[i], s[j])
  }

  ghost predicate NoRepeats<T>(s: seq<T>) { forall i, j :: 0 <= i < j < |s| ==> s[i] != s[j] }

  lemma {:induction false} RepeatsCount<T(!new)>(s: seq<T>)
    ensures NoRepeats(s) <==> forall x :: multiset(s)[x] <= 1
  {
    if s != [] {
      var k := |s| - 1;
      RepeatsCount(s[..k]);
      assert s == s[..k] + [s[k]];
      assert multiset(s) == multiset(s[..k]) + multiset{s[k]};
      assert NoRepeats(s) <==> NoRepeats(s[..k]) && s[k] !in multiset(s[..k]);
      assert (forall x :: multiset(s)[x] <= 1) ==> multiset(s)[s[k]] <= 1;
      assert forall x :: multiset(s[..k])[x] <= multiset(s)[x];
    }
  }

  function Insert<T>(leq: (T, T) -> bool, x: T, s: seq<T>): seq<T> {
    if s == [] then [x]
    else if leq(x, s[0]) then [x] + s
    else [s[0]] + Insert(leq, x, s[1..])
  }

  function Sort<T>(leq: (T, T) -> bool, s: seq<T>): seq<T> {
    if s == [] then [] else Insert(leq, s[0], Sort(leq, s[1..]))
  }

  /** One element less. */
  lemma Without<T>(xs: seq<T>, k: nat)
    requires k < |xs|
    ensures multiset(xs[..k] + xs[k + 1..]) == multiset(xs) - multiset{xs[k]}
  {
    assert xs == xs[..k] + [xs[k]] + xs[k + 1..];
  }

  lemma {:induction false} InsertElements<T(!new)>(leq: (T, T) -> bool, x: T, s: seq<T>)
    ensures multiset(Insert(leq, x, s)) == multiset{x} + multiset(s)
  {
    if s != [] && !leq(x, s[0]) {
      InsertElements(leq, x, s[1..]);
      assert s == [s[0]] + s[1..];
    }
  }

  lemma {:induction false} InsertSorted<T(!new)>(leq: (T, T) -> bool, x: T, s: seq<T>)
    requires TotalOrder(leq) && Ascending(leq, s)
    ensures Ascending(leq, Insert(leq, x, s))
  {
    if s != [] && leq(x, s[0]) {
      assert forall i :: 0 <= i < |s| ==> leq(s[0], s[i]);
    } else if s != [] {
      var rest := Insert(leq, x, s[1..]);
      InsertSorted(leq, x, s[1..]);
      InsertElements(leq, x, s[1..]);
      forall i | 0 <= i < |rest|
        ensures leq(s[0], rest[i])
      {
        assert rest[i] in multiset(rest);
        assert rest[i] == x || rest[i] in s[1..];
      }
    }
  }

  lemma {:induction false} SortSorted<T(!new)>(leq: (T, T) -> bool, s: seq<T>)
    requires TotalOrder(leq)
    ensures Ascending(leq, Sort(leq, s))
    ensures multiset(Sort(leq, s)) == multiset(s)
    ensures |Sort(leq, s)| == |s|
  {
    if s != [] {
      SortSorted(leq, s[1..]);
      InsertSorted(leq, s[0], Sort(leq, s[1..]));
      InsertElements(leq, s[0], Sort(leq, s[1..]));
      assert s == [s[0]] + s[1..];
    }
    assert |multiset(Sort(leq, s))| == |Sort(leq, s)|;
  }

  /** An ascending list is determined by its elements and their multiplicities. */
  lemma {:induction false} AscendingUnique<T(!new)>(leq: (T, T) -> bool, a: seq<T>, b: seq<T>)
    requires TotalOrder(leq) && Ascending(leq, a) && Ascending(leq, b)
    requires multiset(a) == multiset(b)
    ensures a == b
  {
    assert |a| == |multiset(a)| && |b| == |multiset(b)|;
    if a != [] {
      assert a[0] in multiset(b) && b[0] in multiset(a);
      assert a[0] == b[0];
      assert a == [a[0]] + a[1..] && b == [b[0]] + b[1..];
      assert multiset(a[1..]) == multiset(a) - multiset{a[0]};
      assert multiset(b[1..]) == multiset(b) - multiset{b[0]};
      AscendingUnique(leq, a[1..], b[1..]);
    }
  }

  /** Two lists sort to the same list exactly when one is a rearrangement of the other. */
  lemma SortCanonical<T(!new)>(leq: (T, T) -> bool, a: seq<T>, b: seq<T>)
    requires TotalOrder(leq)
    ensures Sort(leq, a) == Sort(leq, b) <==> multiset(a) == multiset(b)
  {
    SortSorted(leq, a);
    SortSorted(leq, b);
    if multiset(a) == multiset(b) {
      AscendingUnique(leq, Sort(leq, a), Sort(leq, b));
    }
  }

  lemma SortPermutes<T(!new)>(leq: (T, T) -> bool, s: seq<T>, x: T)
    requires TotalOrder(leq)
    ensures x in Sort(leq, s) <==> x in s
  {
    SortSorted(leq, s);
    assert x in multiset(Sort(leq, s)) <==> x in multiset(s);
  }

  lemma SortNoRepeats<T(!new)>(leq: (T, T) -> bool, s: seq<T>)
    requires TotalOrder(leq) && NoRepeats(s)
    ensures NoRepeats(Sort(leq, s))
  {
    SortSorted(leq, s);
    RepeatsCount(s);
    RepeatsCount(Sort(leq, s));
  }

  /** Code-point order on strings, as Python compares `str`. */
  predicate StringLeq(a: string, b: string) {
    a == [] || (b != [] && (a[0] < b[0] || (a[0] == b[0] && StringLeq(a[1..], b[1..]))))
  }

  lemma {:induction false} StringTotal(a: string, b: string)
    ensures StringLeq(a, b) || StringLeq(b, a)
  {
    if a != [] && b != [] && a[0] == b[0] {
      StringTotal(a[1..], b[1..]);
    }
  }

  lemma {:induction false} StringAntisymmetric(a: string, b: string)
    requires StringLeq(a, b) && StringLeq(b, a)
    ensures a == b
  {
    if a != [] && b != [] {
      StringAntisymmetric(a[1..], b[1..]);
      assert a == [a[0]] + a[1..] && b == [b[0]] + b[1..];
    }
  }

  lemma {:induction false} StringTransitive(a: string, b: string, c: string)
    requires StringLeq(a, b) && StringLeq(b, c)
    ensures StringLeq(a, c)
  {
    if a != [] && a[0] == b[0] && b[0] == c[0] {
      StringTransitive(a[1..], b[1..], c[1..]);
    }
  }

  lemma StringOrder()
    ensures TotalOrder(StringLeq)
  {
    forall x, y ensures StringLeq(x, y) || StringLeq(y, x) { StringTotal(x, y); }
    forall x, y | StringLeq(x, y) && StringLeq(y, x) ensures x == y { StringAntisymmetric(x, y); }
    forall x, y, z | StringLeq(x, y) && StringLeq(y, z) ensures StringLeq(x, z) { StringTransitive(x, y, z); }
  }

  /** `sorted` on strings. */
  function SortStrings(s: seq<string>): seq<string> { Sort(StringLeq, s) }

  lemma SortStringsCanonical(a: seq<string>, b: seq<string>)
    ensures SortStrings(a) == SortStrings(b) <==> multiset(a) == multiset(b)
  {
    StringOrder();
    SortCanonical(StringLeq, a, b);
  }

  /** `sorted` on a set of strings. */
  ghost function SortedElements(s: set<string>): (r: seq<string>)
    ensures forall x :: x in r <==> x in s
    ensures Ascending(StringLeq, r)
  {
    if s == {} then []
    else
      var x :| x in s;
      var rest := SortedElements(s - {x});
      StringOrder();
      InsertSorted(StringLeq, x, rest);
      InsertElements(StringLeq, x, rest);
      var r := Insert(StringLeq, x, rest);
      assert forall y :: y in r <==> y in multiset(r);
      r
  }

  /** The first difference is at i, and there a is smaller. */
  ghost predicate LessAt(a: string, b: string, i: nat) {
    i < |a| && i < |b| && a[..i] == b[..i] && a[i] < b[i]
  }

  lemma {:induction false} PrefixLeq(a: string, b: string)
    requires a <= b
    ensures StringLeq(a, b)
  {
    if a != [] {
      assert b == a + b[|a|..];
      assert b[1..] == a[1..] + b[|a|..];
      PrefixLeq(a[1..], b[1..]);
    }
  }

  lemma {:induction false} LessLeq(a: string, b: string, i: nat)
    requires LessAt(a, b, i)
    ensures StringLeq(a, b)
  {
    if i > 0 {
      assert a[0] == a[..i][0] == b[..i][0] == b[0];
      assert a[1..][..i - 1] == a[..i][1..] && b[1..][..i - 1] == b[..i][1..];
      LessLeq(a[1..], b[1..], i - 1);
    }
  }

  lemma {:induction false} LeqCases(a: string, b: string)
    requires StringLeq(a, b)
    ensures a <= b || exists i: nat :: LessAt(a, b, i)
  {
    if a != [] {
      if a[0] < b[0] {
        assert LessAt(a, b, 0);
      } else {
        LeqCases(a[1..], b[1..]);
        assert a == [a[0]] + a[1..] && b == [b[0]] + b[1..];
        if i: nat :| LessAt(a[1..], b[1..], i) {
          assert a[..i + 1] == [a[0]] + a[1..][..i] && b[..i + 1] == [b[0]] + b[1..][..i];
          assert LessAt(a, b, i + 1);
        }
      }
    }
  }

  /** Code-point order: a prefix comes first, and otherwise the first difference decides. */
  lemma StringLeqIff(a: string, b: string)
    ensures StringLeq(a, b) <==> a <= b || exists i: nat :: LessAt(a, b, i)
  {
    if a <= b {
      PrefixLeq(a, b);
    }
    if i: nat :| LessAt(a, b, i) {
      LessLeq(a, b, i);
    }
    if StringLeq(a, b) {
      LeqCases(a, b);
    }
  }
}
