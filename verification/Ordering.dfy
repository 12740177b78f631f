/** Listing a set of slots in the order of an injective integer key, and cutting
    the listing into pages. Every paginator is proved against these definitions. */
module Ordering {
  import opened Base

  ghost predicate Injective(k: U32 -> int) {
    forall a, b :: k(a) == k(b) ==> a == b
  }

  /** An order on slots: no two slots share a key, the smaller key comes first. */
  type Order = k: U32 -> int | Injective(k) ghost witness ((x: U32) => x as int)

  ghost predicate Ascending(k: Order, s: seq<U32>) {
    forall i, j :: 0 <= i < j < |s| ==> k(s[i]) < k(s[j])
  }

  /** `s` lists the slots of `c` in order: strictly ascending, inside `c`, and as many as `c` has. */
  ghost predicate IsListing(k: Order, c: Bitmap, s: seq<U32>) {
    && Ascending(k, s)
    && (forall i :: 0 <= i < |s| ==> s[i] in c)
    && |s| == |c|
  }

  lemma {:induction false} AscendingHasNoRepeats(k: Order, s: seq<U32>)
    requires Ascending(k, s)
    ensures |Elements(s)| == |s|
  {
    if s != [] {
      var n := |s| - 1;
      AscendingHasNoRepeats(k, s[..n]);
      assert s == s[..n] + [s[n]];
      assert Elements(s) == Elements(s[..n]) + {s[n]};
      assert s[n] !in Elements(s[..n]);
    }
  }

  lemma SubsetOfSameSize(a: Bitmap, b: Bitmap)
    requires a <= b && |a| == |b|
    ensures a == b
  {
    assert b == a + (b - a);
  }

  /** A listing holds every slot of its set, and nothing else. */
  lemma ListingCovers(k: Order, c: Bitmap, s: seq<U32>)
    requires IsListing(k, c, s)
    ensures Elements(s) == c
  {
    AscendingHasNoRepeats(k, s);
    SubsetOfSameSize(Elements(s), c);
  }

  /** An ascending list with exactly the members of a set lists it. */
  lemma AscendingMembersAreListing(k: Order, c: Bitmap, s: seq<U32>)
    requires Ascending(k, s)
    requires Elements(s) == c
    ensures IsListing(k, c, s)
  {
    AscendingHasNoRepeats(k, s);
  }

  ghost predicate IsFirst(k: Order, c: Bitmap, m: U32) {
    m in c && forall x :: x in c && x != m ==> k(m) < k(x)
  }

  lemma {:induction false} FirstExists(k: Order, c: Bitmap) returns (m: U32)
    requires c != {}
    ensures IsFirst(k, c, m)
    decreases |c|
  {
    m :| m in c;
    if c != {m} {
      var y := FirstExists(k, c - {m});
      if k(y) < k(m) {
        m := y;
      }
    }
  }

  lemma {:induction false} ListingExists(k: Order, c: Bitmap) returns (s: seq<U32>)
    ensures IsListing(k, c, s)
    decreases |c|
  {
    if c == {} {
      s := [];
    } else {
      var m := FirstExists(k, c);
      var rest := ListingExists(k, c - {m});
      s := [m] + rest;
    }
  }

  /** All slots of a set in order: the reference every page is a slice of. */
  ghost function Listing(k: Order, c: Bitmap): (s: seq<U32>)
    ensures IsListing(k, c, s)
  {
    assert exists s :: IsListing(k, c, s) by {
      var s := ListingExists(k, c);
    }
    var s :| IsListing(k, c, s);
    s
  }

  lemma HeadIsFirst(k: Order, c: Bitmap, m: U32, s: seq<U32>)
    requires IsListing(k, c, s)
    requires IsFirst(k, c, m)
    ensures s != [] && s[0] == m
    ensures IsListing(k, c - {m}, s[1..])
  {
    ListingCovers(k, c, s);
    assert m in s;
    var i :| 0 <= i < |s| && s[i] == m;
    assert s[0] in c;
  }

  lemma {:induction false} SameListing(k: Order, c: Bitmap, s: seq<U32>, t: seq<U32>)
    requires IsListing(k, c, s) && IsListing(k, c, t)
    ensures s == t
    decreases |c|
  {
    if c != {} {
      var m := FirstExists(k, c);
      HeadIsFirst(k, c, m, s);
      HeadIsFirst(k, c, m, t);
      SameListing(k, c - {m}, s[1..], t[1..]);
      assert s == [m] + s[1..] && t == [m] + t[1..];
    }
  }

  /** There is only one listing of a set. */
  lemma ListingIsUnique(k: Order, c: Bitmap, s: seq<U32>)
    requires IsListing(k, c, s)
    ensures s == Listing(k, c)
  {
    SameListing(k, c, s, Listing(k, c));
  }

  ghost predicate AllBefore(k: Order, a: Bitmap, b: Bitmap) {
    forall x, y :: x in a && y in b ==> k(x) < k(y)
  }

  /** A set that splits into an earlier and a later part lists as the two listings. */
  lemma ListingSplits(k: Order, a: Bitmap, b: Bitmap)
    requires AllBefore(k, a, b)
    ensures Listing(k, a + b) == Listing(k, a) + Listing(k, b)
  {
    assert a !! b;
    ListingIsUnique(k, a + b, Listing(k, a) + Listing(k, b));
  }

  /** The slots that come strictly after a position. */
  function AfterKey(k: U32 -> int, c: Bitmap, position: int): Bitmap {
    set x | x in c && position < k(x)
  }

  /** Cutting a listing where a position falls leaves the listing of what follows the position. */
  lemma SuffixFollows(k: Order, c: Bitmap, s: seq<U32>, position: int, p: nat)
    requires IsListing(k, c, s)
    requires p <= |s|
    requires forall i :: 0 <= i < p ==> k(s[i]) <= position
    requires forall i :: p <= i < |s| ==> position < k(s[i])
    ensures s[p..] == Listing(k, AfterKey(k, c, position))
  {
    ListingCovers(k, c, s);
    var t := s[p..];
    assert forall i, j :: 0 <= i < j < |t| ==> t[i] == s[p + i] && t[j] == s[p + j];
    assert Ascending(k, t);
    forall x ensures x in Elements(t) <==> x in AfterKey(k, c, position) {
      if x in AfterKey(k, c, position) {
        assert x in s;
        var j :| 0 <= j < |s| && s[j] == x;
        assert t[j - p] == x;
      }
    }
    AscendingMembersAreListing(k, AfterKey(k, c, position), t);
    ListingIsUnique(k, AfterKey(k, c, position), t);
  }

  /** Resuming at the slot in position `i` of the listing leaves what follows it. */
  lemma ResumeContinues(k: Order, c: Bitmap, i: nat)
    requires i < |c|
    ensures Listing(k, AfterKey(k, c, k(Listing(k, c)[i]))) == Listing(k, c)[i + 1..]
  {
    var s := Listing(k, c);
    SuffixFollows(k, c, s, k(s[i]), i + 1);
  }

  /** A set of the right size whose slots all come before the others is the page. */
  lemma FirstSlotsArePage(k: Order, c: Bitmap, top: Bitmap, limit: nat)
    requires top <= c
    requires |top| == Min(limit, |c|)
    requires AllBefore(k, top, c - top)
    ensures Listing(k, top) == Take(Listing(k, c), limit)
  {
    var s, t := Listing(k, top), Listing(k, c - top);
    ListingSplits(k, top, c - top);
    assert top + (c - top) == c;
    assert (s + t)[..|s|] == s;
  }
}
