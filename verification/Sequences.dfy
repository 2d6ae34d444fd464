/**
 Sequences without repetition, and what the code expects of `sort.Slice`: a sorted
 rearrangement.  When the order separates the elements there is only one, so the
 algorithm behind it cannot matter.
 */
module Sequences {
  ghost function Elements<T>(s: seq<T>): (r: set<T>) {
    set x | x in s
  }

  ghost predicate NoDuplicates<T>(s: seq<T>) {
    forall i, j | 0 <= i < j < |s| :: s[i] != s[j]
  }

  lemma EmptyElements<T>(s: seq<T>)
    ensures s == [] <==> forall x :: x !in Elements(s)
  {
    if s != [] {
      assert s[0] in Elements(s);
    }
  }

  /** `less` is a strict total order on the elements of `dom`. */
  ghost predicate TotalOrderOn<T>(less: (T, T) -> bool, dom: set<T>) {
    && (forall x <- dom :: !less(x, x))
    && (forall x <- dom, y <- dom :: x == y || less(x, y) || less(y, x))
    && (forall x <- dom, y <- dom, z <- dom :: less(x, y) && less(y, z) ==> less(x, z))
  }

  ghost predicate Sorted<T>(s: seq<T>, less: (T, T) -> bool) {
    forall i, j | 0 <= i < j < |s| :: s[i] == s[j] || less(s[i], s[j])
  }

  /** Where `x` belongs: after everything below it. */
  lemma InsertedIsSorted<T>(s: seq<T>, x: T, k: nat, less: (T, T) -> bool)
    requires Sorted(s, less) && k <= |s|
    requires forall i | 0 <= i < k :: less(s[i], x)
    requires forall i | k <= i < |s| :: x == s[i] || less(x, s[i])
    ensures Sorted(s[..k] + [x] + s[k..], less)
  {
    var r := s[..k] + [x] + s[k..];
    forall i, j | 0 <= i < j < |r|
      ensures r[i] == r[j] || less(r[i], r[j])
    {
      var i', j' := if i < k then i else i - 1, if j < k then j else j - 1;
      assert i != k ==> r[i] == s[i'];
      assert j != k ==> r[j] == s[j'];
    }
  }

  method Insert<T(==)>(s: seq<T>, x: T, less: (T, T) -> bool) returns (r: seq<T>)
    requires TotalOrderOn(less, Elements(s) + {x}) && Sorted(s, less)
    ensures Sorted(r, less) && multiset(r) == multiset(s) + multiset{x}
  {
    var k := 0;
    while k < |s| && less(s[k], x)
      invariant k <= |s|
      invariant forall i | 0 <= i < k :: less(s[i], x)
    {
      k := k + 1;
    }
    RestIsAbove(s, x, k, less);
    InsertedIsSorted(s, x, k, less);
    assert s == s[..k] + s[k..];
    r := s[..k] + [x] + s[k..];
  }

  lemma RestIsAbove<T>(s: seq<T>, x: T, k: nat, less: (T, T) -> bool)
    requires TotalOrderOn(less, Elements(s) + {x}) && Sorted(s, less)
    requires k <= |s| && (k < |s| ==> !less(s[k], x))
    ensures forall i | k <= i < |s| :: x == s[i] || less(x, s[i])
  {
    var dom := Elements(s) + {x};
    forall i | k <= i < |s|
      ensures x == s[i] || less(x, s[i])
    {
      assert s[k] in dom && s[i] in dom && x in dom;
    }
  }

  method Sort<T(==)>(s: seq<T>, less: (T, T) -> bool) returns (r: seq<T>)
    requires TotalOrderOn(less, Elements(s))
    ensures Sorted(r, less) && multiset(r) == multiset(s)
  {
    r := [];
    for i := 0 to |s|
      invariant Sorted(r, less) && multiset(r) == multiset(s[..i])
    {
      assert s[..i + 1] == s[..i] + [s[i]];
      forall y | y in r
        ensures y in s
      {
        assert y in multiset(r);
        assert y in s[..i];
      }
      r := Insert(r, s[i], less);
    }
    assert s[..|s|] == s;
  }

  lemma SameFirst<T>(a: seq<T>, b: seq<T>, less: (T, T) -> bool)
    requires TotalOrderOn(less, Elements(a)) && a != [] && b != []
    requires Sorted(a, less) && Sorted(b, less) && multiset(a) == multiset(b)
    ensures a[0] == b[0]
  {
    assert a[0] in multiset(b) && b[0] in multiset(a);
    assert a[0] in b && b[0] in a;
    assert a[0] in Elements(a) && b[0] in Elements(a);
  }

  lemma WithoutFirst<T>(s: seq<T>)
    requires s != []
    ensures s == [s[0]] + s[1..] && multiset(s[1..]) == multiset(s) - multiset{s[0]}
  {
    assert s == [s[0]] + s[1..];
  }

  /** A sorted rearrangement is unique. */
  lemma {:induction false} SortedUnique<T>(a: seq<T>, b: seq<T>, less: (T, T) -> bool)
    requires TotalOrderOn(less, Elements(a))
    requires Sorted(a, less) && Sorted(b, less) && multiset(a) == multiset(b)
    ensures a == b
  {
    assert |a| == |multiset(a)| == |multiset(b)| == |b|;
    if a != [] {
      SameFirst(a, b, less);
      WithoutFirst(a);
      WithoutFirst(b);
      SortedUnique(a[1..], b[1..], less);
    }
  }

  /** Two sorted sequences without repetition and with the same elements are equal. */
  lemma SameElementsSameSequence<T>(a: seq<T>, b: seq<T>, less: (T, T) -> bool)
    requires TotalOrderOn(less, Elements(a))
    requires Sorted(a, less) && Sorted(b, less) && Elements(a) == Elements(b)
    requires NoDuplicates(a) && NoDuplicates(b)
    ensures a == b
  {
    forall x
      ensures multiset(a)[x] == multiset(b)[x]
    {
      assert x in Elements(a) <==> x in Elements(b);
      CountOnce(a, x);
      CountOnce(b, x);
    }
    assert multiset(a) == multiset(b);
    SortedUnique(a, b, less);
  }

  lemma {:induction false} CountOnce<T>(s: seq<T>, x: T)
    requires NoDuplicates(s)
    ensures multiset(s)[x] == if x in Elements(s) then 1 else 0
  {
    if s != [] {
      assert s == [s[0]] + s[1..];
      CountOnce(s[1..], x);
    }
  }

  /** A rearrangement keeps the elements, and keeps them distinct. */
  lemma RearrangementFacts<T>(a: seq<T>, b: seq<T>)
    requires multiset(a) == multiset(b)
    ensures Elements(a) == Elements(b)
    ensures NoDuplicates(a) ==> NoDuplicates(b)
  {
    forall x
      ensures x in a <==> x in b
    {
      assert x in multiset(a) <==> x in multiset(b);
    }
    if NoDuplicates(a) {
      forall i, j | 0 <= i < j < |b|
        ensures b[i] != b[j]
      {
        CountOnce(a, b[i]);
        if b[i] == b[j] {
          CountTwice(b, i, j);
        }
      }
    }
  }

  lemma CountTwice<T>(s: seq<T>, i: nat, j: nat)
    requires i < j < |s| && s[i] == s[j]
    ensures multiset(s)[s[i]] >= 2
  {
    assert s == s[..i] + [s[i]] + s[i + 1..j] + [s[j]] + s[j + 1..];
  }
}
