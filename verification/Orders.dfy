/** Sorting by a strict total order, and the order of byte strings. */
module Orders {
  datatype Option<+T> = None | Some(value: T)

  function Elements<T>(s: seq<T>): set<T> {
    set x | x in s
  }

  lemma SubsetSize<T>(a: set<T>, b: set<T>)
    requires a <= b
    ensures |a| <= |b|
  {
    assert b == a + (b - a);
  }

  lemma MoreThan<T>(small: set<T>, big: set<T>, x: T)
    requires small <= big && x in big && x !in small
    ensures |small| < |big|
  {
    SubsetSize(small + {x}, big);
  }

  ghost predicate NoDup<T>(s: seq<T>) {
    forall i, j :: 0 <= i < j < |s| ==> s[i] != s[j]
  }

  ghost predicate StrictTotal<T(!new)>(less: (T, T) -> bool) {
    && (forall x :: !less(x, x))
    && (forall x, y, z :: less(x, y) && less(y, z) ==> less(x, z))
    && (forall x, y :: x != y ==> less(x, y) || less(y, x))
  }

  ghost predicate SortedBy<T>(less: (T, T) -> bool, s: seq<T>) {
    forall i, j :: 0 <= i < j < |s| ==> less(s[i], s[j])
  }

  function Insert<T(==)>(less: (T, T) -> bool, x: T, s: seq<T>): (r: seq<T>) {
    if s == [] || x == s[0] || less(x, s[0]) then [x] + s else [s[0]] + Insert(less, x, s[1..])
  }

  /** What sorting a slice in place leaves in it. */
  function Sort<T(==)>(less: (T, T) -> bool, s: seq<T>): (r: seq<T>) {
    if s == [] then [] else Insert(less, s[0], Sort(less, s[1..]))
  }

  lemma {:induction false} InsertElements<T>(less: (T, T) -> bool, x: T, s: seq<T>)
    ensures forall y :: y in Insert(less, x, s) <==> y == x || y in s
    ensures |Insert(less, x, s)| == |s| + 1
  {
    if s == [] || x == s[0] || less(x, s[0]) {
    } else {
      InsertElements(less, x, s[1..]);
      assert forall y :: y in s <==> y == s[0] || y in s[1..];
    }
  }

  lemma ConsSorted<T>(less: (T, T) -> bool, x: T, s: seq<T>)
    requires SortedBy(less, s) && forall y :: y in s ==> less(x, y)
    ensures SortedBy(less, [x] + s)
  {
    var r := [x] + s;
    assert forall i :: 0 < i < |r| ==> r[i] == s[i - 1] && r[i] in s;
  }

  lemma TailSorted<T>(less: (T, T) -> bool, s: seq<T>)
    requires SortedBy(less, s) && s != []
    ensures SortedBy(less, s[1..])
    ensures forall y :: y in s[1..] ==> less(s[0], y)
    ensures forall y :: y in s <==> y == s[0] || y in s[1..]
  {
  }

  lemma {:induction false} InsertSorted<T(!new)>(less: (T, T) -> bool, x: T, s: seq<T>)
    requires StrictTotal(less) && SortedBy(less, s) && x !in s
    ensures SortedBy(less, Insert(less, x, s))
  {
    if s == [] {
    } else if less(x, s[0]) {
      TailSorted(less, s);
      ConsSorted(less, x, s);
    } else {
      TailSorted(less, s);
      InsertSorted(less, x, s[1..]);
      InsertElements(less, x, s[1..]);
      ConsSorted(less, s[0], Insert(less, x, s[1..]));
    }
  }

  /** Sorting keeps exactly the elements, and a duplicate-free slice comes out in strict order. */
  lemma {:induction false} SortSorts<T(!new)>(less: (T, T) -> bool, s: seq<T>)
    ensures |Sort(less, s)| == |s|
    ensures forall x :: x in Sort(less, s) <==> x in s
    ensures StrictTotal(less) && NoDup(s) ==> SortedBy(less, Sort(less, s))
  {
    if s != [] {
      SortSorts(less, s[1..]);
      InsertElements(less, s[0], Sort(less, s[1..]));
      assert forall x :: x in s <==> x == s[0] || x in s[1..];
      if StrictTotal(less) && NoDup(s) {
        assert s[0] !in s[1..];
        InsertSorted(less, s[0], Sort(less, s[1..]));
      }
    }
  }

  /** A set has one listing in strict order, so no iteration order shows through a sort. */
  lemma {:induction false} SortedUnique<T(!new)>(less: (T, T) -> bool, a: seq<T>, b: seq<T>)
    requires StrictTotal(less) && SortedBy(less, a) && SortedBy(less, b)
    requires forall x :: x in a <==> x in b
    ensures a == b
  {
    assert b != [] ==> b[0] in a;
    if a != [] {
      assert a[0] in b;
      TailSorted(less, a);
      TailSorted(less, b);
      assert a[0] == b[0];
      forall x ensures x in a[1..] <==> x in b[1..] {
        if x == a[0] { assert !less(x, x); }
      }
      SortedUnique(less, a[1..], b[1..]);
      assert a == [a[0]] + a[1..] && b == [b[0]] + b[1..];
    }
  }

  /** Appends the members of a set in whatever order iteration yields them, then sorts. */
  method SortedListing<T(==, !new)>(less: (T, T) -> bool, S: set<T>) returns (out: seq<T>)
    requires StrictTotal(less)
    ensures SortedBy(less, out) && Elements(out) == S
  {
    out := [];
    var todo := S;
    while todo != {}
      invariant todo <= S
      invariant NoDup(out) && forall x :: x in out <==> x in S - todo
      decreases todo
    {
      var x :| x in todo;
      assert x !in out;
      todo := todo - {x};
      out := out + [x];
    }
    SortSorts(less, out);
    out := Sort(less, out);
  }

  // ----- byte strings

  /** Lexicographic order of strings, as Go compares them. */
  predicate Less(a: string, b: string) {
    if b == "" then false
    else if a == "" then true
    else a[0] < b[0] || (a[0] == b[0] && Less(a[1..], b[1..]))
  }

  lemma {:induction false} LessTrans(a: string, b: string, c: string)
    requires Less(a, b) && Less(b, c)
    ensures Less(a, c)
  {
    if a != "" && a[0] == b[0] && b[0] == c[0] {
      LessTrans(a[1..], b[1..], c[1..]);
    }
  }

  lemma {:induction false} LessTotal(a: string, b: string)
    ensures !Less(a, a)
    ensures a != b ==> Less(a, b) || Less(b, a)
  {
    if a != "" {
      if b != "" && a[0] == b[0] {
        LessTotal(a[1..], b[1..]);
        assert a == [a[0]] + a[1..] && b == [b[0]] + b[1..];
      } else {
        LessTotal(a[1..], "");
      }
    }
  }

  lemma LessIsStrictTotal()
    ensures StrictTotal(Less)
  {
    forall a, b { LessTotal(a, b); }
    forall a, b, c | Less(a, b) && Less(b, c) ensures Less(a, c) { LessTrans(a, b, c); }
  }
}
