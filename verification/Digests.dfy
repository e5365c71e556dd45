/** Digests: opaque names with a total order, and the sorting the protocol does on them. */
module Digests {
  import opened Orders

  /** A content digest. Only equality and the order used for sorting matter. */
  type Digest = nat

  predicate Before(a: Digest, b: Digest) {
    a < b
  }

  ghost predicate StrictlySorted(s: seq<Digest>) {
    forall i, j :: 0 <= i < j < |s| ==> s[i] < s[j]
  }

  /** What sortDigests leaves in its slice. */
  function SortDigests(s: seq<Digest>): seq<Digest> {
    Sort(Before, s)
  }

  lemma SortedDigests(s: seq<Digest>)
    ensures |SortDigests(s)| == |s|
    ensures forall x :: x in SortDigests(s) <==> x in s
    ensures NoDup(s) ==> StrictlySorted(SortDigests(s))
  {
    SortSorts(Before, s);
    assert StrictTotal(Before);
    if NoDup(s) {
      var r := SortDigests(s);
      assert forall i, j :: 0 <= i < j < |r| ==> Before(r[i], r[j]);
    }
  }

  /** A set of digests has one strictly ascending listing. */
  lemma StrictlySortedUnique(a: seq<Digest>, b: seq<Digest>)
    requires StrictlySorted(a) && StrictlySorted(b)
    requires forall x :: x in a <==> x in b
    ensures a == b
  {
    assert StrictTotal(Before) && SortedBy(Before, a) && SortedBy(Before, b);
    SortedUnique(Before, a, b);
  }

  /** A set of digests as a sorted slice. */
  method Collect(ds: set<Digest>) returns (out: seq<Digest>)
    ensures StrictlySorted(out) && Elements(out) == ds
  {
    assert StrictTotal(Before);
    out := SortedListing(Before, ds);
    assert forall i, j :: 0 <= i < j < |out| ==> Before(out[i], out[j]);
  }

  lemma {:induction false} ListingExists(S: set<Digest>)
    ensures exists s: seq<Digest> :: StrictlySorted(s) && Elements(s) == S
  {
    if S == {} {
      assert StrictlySorted([]) && Elements<Digest>([]) == S;
    } else {
      var d :| d in S;
      ListingExists(S - {d});
      var rest: seq<Digest> :| StrictlySorted(rest) && Elements(rest) == S - {d};
      assert d !in rest by { assert forall x :: x in rest <==> x in Elements(rest); }
      SortedDigests([d] + rest);
      assert Elements(SortDigests([d] + rest)) == S by {
        assert forall x :: x in rest <==> x in Elements(rest);
      }
    }
  }

  /** The sorted listing of a set, the one way a slice can hold it sorted. */
  ghost function Listing(S: set<Digest>): (s: seq<Digest>)
    ensures StrictlySorted(s) && Elements(s) == S
  {
    ListingExists(S);
    var s: seq<Digest> :| StrictlySorted(s) && Elements(s) == S;
    s
  }

  lemma IsListing(s: seq<Digest>)
    requires StrictlySorted(s)
    ensures s == Listing(Elements(s))
  {
    var t := Listing(Elements(s));
    assert forall x :: x in s <==> x in Elements(s);
    assert forall x :: x in t <==> x in Elements(t);
    StrictlySortedUnique(s, t);
  }

  lemma {:induction false} ListingSize(s: seq<Digest>)
    requires StrictlySorted(s)
    ensures |Elements(s)| == |s|
  {
    if s != [] {
      var last, t := s[|s| - 1], s[..|s| - 1];
      ListingSize(t);
      assert Elements(s) == Elements(t) + {last} && last !in Elements(t);
    }
  }
}
