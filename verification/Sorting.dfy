/** Sorting by a strict total order: the arrangement is unique, whatever order the elements came in. */
module Sorting {
  ghost predicate StrictOrderOn<T(!new)>(less: (T, T) -> bool, elements: set<T>) {
    && (forall a, b :: a in elements && b in elements ==> !(less(a, b) && less(b, a)))
    && (forall a, b :: a in elements && b in elements && a != b ==> less(a, b) || less(b, a))
    && (forall a, b, c :: a in elements && b in elements && c in elements && less(a, b) && less(b, c) ==> less(a, c))
  }

  ghost predicate Ascending<T(!new)>(less: (T, T) -> bool, xs: seq<T>) {
    forall i, j :: 0 <= i < j < |xs| ==> less(xs[i], xs[j])
  }

  function Elements<T(==)>(xs: seq<T>): set<T> {
    set x | x in xs
  }

  /** Every element once, in order. */
  ghost predicate IsListing<T(!new)>(less: (T, T) -> bool, elements: set<T>, xs: seq<T>) {
    Elements(xs) == elements && Ascending(less, xs)
  }

  lemma {:induction false} ListingIsUnique<T(!new)>(less: (T, T) -> bool, elements: set<T>, a: seq<T>, b: seq<T>)
    requires StrictOrderOn(less, elements) && IsListing(less, elements, a) && IsListing(less, elements, b)
    ensures a == b
    decreases |a|
  {
    if |a| == 0 {
      NothingListed(a);
      NothingListed(b);
    } else {
      assert a[0] in elements;
      assert |b| > 0 && a[0] in b && b[0] in a && b[0] in elements;
      FirstIsLeast(less, elements, a, b[0]);
      FirstIsLeast(less, elements, b, a[0]);
      assert a[0] == b[0];
      var rest := elements - {a[0]};
      TailLists(less, elements, a);
      TailLists(less, elements, b);
      ListingIsUnique(less, rest, a[1..], b[1..]);
      assert a == [a[0]] + a[1..] && b == [b[0]] + b[1..];
    }
  }

  lemma NothingListed<T>(xs: seq<T>)
    ensures Elements(xs) == {} <==> xs == []
  {
    if |xs| > 0 {
      assert xs[0] in Elements(xs);
    }
  }

  lemma FirstIsLeast<T(!new)>(less: (T, T) -> bool, elements: set<T>, xs: seq<T>, x: T)
    requires IsListing(less, elements, xs) && x in elements
    ensures |xs| > 0 && (xs[0] == x || less(xs[0], x))
  {
    assert x in Elements(xs);
    var i :| 0 <= i < |xs| && xs[i] == x;
  }

  lemma TailLists<T(!new)>(less: (T, T) -> bool, elements: set<T>, xs: seq<T>)
    requires StrictOrderOn(less, elements) && IsListing(less, elements, xs) && |xs| > 0
    ensures IsListing(less, elements - {xs[0]}, xs[1..])
  {
    var rest := xs[1..];
    assert forall x :: x in xs <==> x == xs[0] || x in rest by { assert xs == [xs[0]] + rest; }
    assert forall i :: 0 <= i < |rest| ==> less(xs[0], rest[i]);
    assert xs[0] in Elements(xs) && !less(xs[0], xs[0]);
  }

  function Insert<T>(less: (T, T) -> bool, x: T, xs: seq<T>): seq<T> {
    if |xs| == 0 then [x]
    else if less(x, xs[0]) then [x] + xs
    else [xs[0]] + Insert(less, x, xs[1..])
  }

  lemma {:induction false} InsertLists<T(!new)>(less: (T, T) -> bool, elements: set<T>, x: T, xs: seq<T>)
    requires StrictOrderOn(less, elements + {x}) && IsListing(less, elements, xs) && x !in elements
    ensures IsListing(less, elements + {x}, Insert(less, x, xs))
    decreases xs
  {
    var r := Insert(less, x, xs);
    if |xs| == 0 {
      assert Elements(r) == elements + {x};
    } else if less(x, xs[0]) {
      assert forall y :: y in xs <==> y in elements by { assert forall y :: y in xs <==> y in Elements(xs); }
      assert Elements(r) == elements + {x};
      assert forall j :: 0 <= j < |xs| ==> xs[j] in elements;
      forall i, j | 0 <= i < j < |r| ensures less(r[i], r[j]) {
        if i == 0 && j > 1 { assert less(xs[0], xs[j - 1]); }
      }
    } else {
      assert xs[0] in Elements(xs);
      TailLists(less, elements, xs);
      var rest := elements - {xs[0]};
      InsertLists(less, rest, x, xs[1..]);
      var tail := Insert(less, x, xs[1..]);
      assert forall y :: y in tail <==> y in Elements(tail);
      assert forall y :: y in r <==> y == xs[0] || y in tail;
      assert Elements(r) == elements + {x};
      forall j | 0 <= j < |tail| ensures less(xs[0], tail[j]) {
        assert tail[j] in Elements(tail);
        if tail[j] != x {
          assert tail[j] in elements && tail[j] in Elements(xs);
          FirstIsLeast(less, elements, xs, tail[j]);
        }
      }
    }
  }

  /** The library's sort, up to its algorithm: any that sorts gives this answer when the order is total. */
  method Sort<T(!new)>(less: (T, T) -> bool, xs: seq<T>) returns (r: seq<T>)
    requires StrictOrderOn(less, Elements(xs))
    requires forall i, j :: 0 <= i < j < |xs| ==> xs[i] != xs[j]
    ensures IsListing(less, Elements(xs), r)
  {
    r := [];
    var n := 0;
    while n < |xs|
      invariant 0 <= n <= |xs|
      invariant IsListing(less, Elements(xs[..n]), r)
    {
      assert Elements(xs[..n + 1]) == Elements(xs[..n]) + {xs[n]};
      assert Elements(xs[..n + 1]) <= Elements(xs);
      InsertLists(less, Elements(xs[..n]), xs[n], r);
      r := Insert(less, xs[n], r);
      n := n + 1;
    }
    assert xs[..n] == xs;
  }

  /** The listing of a finite set, as a value. */
  ghost function Listing<T(!new)>(less: (T, T) -> bool, elements: set<T>): (xs: seq<T>)
    requires StrictOrderOn(less, elements)
    ensures IsListing(less, elements, xs)
  {
    if elements == {} then []
    else
      var x :| x in elements;
      var xs := Listing(less, elements - {x});
      InsertLists(less, elements - {x}, x, xs);
      assert elements - {x} + {x} == elements;
      Insert(less, x, xs)
  }

  // ---------------------------------------------------------- strings, in order

  /** Dictionary order, as strings compare with `<` in the source. */
  predicate LexLess(a: string, b: string)
    decreases a
  {
    |b| > 0 && (|a| == 0 || a[0] < b[0] || (a[0] == b[0] && LexLess(a[1..], b[1..])))
  }

  lemma {:induction false} LexIsTotal(a: string, b: string)
    ensures !(LexLess(a, b) && LexLess(b, a))
    ensures a != b ==> LexLess(a, b) || LexLess(b, a)
    decreases a
  {
    if |a| > 0 && |b| > 0 {
      LexIsTotal(a[1..], b[1..]);
      assert a == [a[0]] + a[1..] && b == [b[0]] + b[1..];
    }
  }

  lemma {:induction false} LexIsTransitive(a: string, b: string, c: string)
    requires LexLess(a, b) && LexLess(b, c)
    ensures LexLess(a, c)
    decreases a
  {
    if |a| > 0 && a[0] == b[0] == c[0] {
      LexIsTransitive(a[1..], b[1..], c[1..]);
    }
  }
}
