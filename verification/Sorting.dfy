/** Sorting under a total order, and what it forgets. */
module Sorting {
  type Order<!T> = (T, T) -> bool

  ghost predicate IsTotalOrder<T(!new)>(le: Order<T>) {
    && (forall a, b :: le(a, b) || le(b, a))
    && (forall a, b :: le(a, b) && le(b, a) ==> a == b)
    && (forall a, b, c :: le(a, b) && le(b, c) ==> le(a, c))
  }

  ghost predicate IsSorted<T>(s: seq<T>, le: Order<T>) {
    forall i, j :: 0 <= i < j < |s| ==> le(s[i], s[j])
  }

  function Inserted<T>(s: seq<T>, x: T, le: Order<T>): seq<T> {
    if s == [] || le(x, s[0]) then [x] + s else [s[0]] + Inserted(s[1..], x, le)
  }

  function Sort<T>(s: seq<T>, le: Order<T>): seq<T> {
    if s == [] then [] else Inserted(Sort(s[1..], le), s[0], le)
  }

  lemma {:induction false} InsertedSame<T>(s: seq<T>, x: T, le: Order<T>)
    ensures multiset(Inserted(s, x, le)) == multiset(s) + multiset{x}
  {
    if s != [] && !le(x, s[0]) {
      InsertedSame(s[1..], x, le);
      assert s == [s[0]] + s[1..];
    }
  }

  lemma {:induction false} InsertedSorted<T(!new)>(s: seq<T>, x: T, le: Order<T>)
    requires IsTotalOrder(le) && IsSorted(s, le)
    ensures IsSorted(Inserted(s, x, le), le)
  {
    if s != [] && !le(x, s[0]) {
      InsertedSorted(s[1..], x, le);
      InsertedSame(s[1..], x, le);
      var rest := Inserted(s[1..], x, le);
      forall i | 0 <= i < |rest| ensures le(s[0], rest[i]) {
        assert rest[i] in multiset(rest);
        if rest[i] != x {
          assert rest[i] in multiset(s[1..]);
        }
      }
    }
  }

  lemma {:induction false} SortSorts<T(!new)>(s: seq<T>, le: Order<T>)
    requires IsTotalOrder(le)
    ensures IsSorted(Sort(s, le), le) && multiset(Sort(s, le)) == multiset(s)
  {
    if s != [] {
      SortSorts(s[1..], le);
      InsertedSorted(Sort(s[1..], le), s[0], le);
      InsertedSame(Sort(s[1..], le), s[0], le);
      assert s == [s[0]] + s[1..];
    }
  }

  lemma SortedHead<T(!new)>(a: seq<T>, b: seq<T>, le: Order<T>)
    requires IsTotalOrder(le) && IsSorted(a, le) && IsSorted(b, le) && multiset(a) == multiset(b) && a != [] && b != []
    ensures a[0] == b[0]
  {
    assert a[0] in multiset(b) && b[0] in multiset(a);
    assert le(a[0], b[0]) && le(b[0], a[0]);
  }

  /** One arrangement of given elements is sorted. */
  lemma {:induction false} SortedIsUnique<T(!new)>(a: seq<T>, b: seq<T>, le: Order<T>)
    requires IsTotalOrder(le) && IsSorted(a, le) && IsSorted(b, le) && multiset(a) == multiset(b)
    ensures a == b
    decreases |a|
  {
    assert |multiset(a)| == |multiset(b)|;
    if a != [] {
      SortedHead(a, b, le);
      HeadAndTail(a);
      HeadAndTail(b);
      SortedIsUnique(a[1..], b[1..], le);
    }
  }

  lemma HeadAndTail<T>(a: seq<T>)
    requires a != []
    ensures a == [a[0]] + a[1..] && multiset(a[1..]) == multiset(a) - multiset{a[0]}
  {
    assert a == [a[0]] + a[1..];
  }

  lemma SortForgetsOrder<T(!new)>(a: seq<T>, b: seq<T>, le: Order<T>)
    requires IsTotalOrder(le)
    ensures Sort(a, le) == Sort(b, le) <==> multiset(a) == multiset(b)
  {
    SortSorts(a, le);
    SortSorts(b, le);
    if multiset(a) == multiset(b) {
      SortedIsUnique(Sort(a, le), Sort(b, le), le);
    }
  }

  // ---- Images of lists ----

  function Map<A, B>(f: A -> B, s: seq<A>): (r: seq<B>)
    ensures |r| == |s|
  {
    if s == [] then [] else [f(s[0])] + Map(f, s[1..])
  }

  lemma {:induction false} MapAt<A, B>(f: A -> B, s: seq<A>, i: nat)
    requires i < |s|
    ensures Map(f, s)[i] == f(s[i])
  {
    if i > 0 {
      MapAt(f, s[1..], i - 1);
    }
  }

  lemma {:induction false} MapJoined<A, B>(f: A -> B, a: seq<A>, b: seq<A>)
    ensures Map(f, a + b) == Map(f, a) + Map(f, b)
  {
    if a == [] {
      assert a + b == b;
    } else {
      MapJoined(f, a[1..], b);
      assert (a + b)[1..] == a[1..] + b;
    }
  }

  lemma PulledOut<T>(s: seq<T>, k: nat)
    requires k < |s|
    ensures s == s[..k] + ([s[k]] + s[k + 1..])
    ensures multiset(s) == multiset(s[..k] + s[k + 1..]) + multiset{s[k]}
  {
    assert s == s[..k] + ([s[k]] + s[k + 1..]);
  }

  lemma SameRest<T>(a: seq<T>, b: seq<T>, k: nat)
    requires multiset(a) == multiset(b) && a != [] && k < |b| && b[k] == a[0]
    ensures multiset(a[1..]) == multiset(b[..k] + b[k + 1..])
  {
    PulledOut(a, 0);
    PulledOut(b, k);
    assert a[..0] + a[1..] == a[1..];
    Cancels(multiset(a[1..]), multiset(b[..k] + b[k + 1..]), multiset{a[0]});
  }

  lemma Cancels<T>(x: multiset<T>, y: multiset<T>, m: multiset<T>)
    requires x + m == y + m
    ensures x == y
  {
    assert x == x + m - m && y == y + m - m;
  }

  lemma MapPulledOut<A, B>(f: A -> B, s: seq<A>, k: nat)
    requires k < |s|
    ensures multiset(Map(f, s)) == multiset(Map(f, s[..k] + s[k + 1..])) + multiset{f(s[k])}
  {
    PulledOut(s, k);
    MapJoined(f, s[..k], s[k + 1..]);
    MapJoined(f, s[..k], [s[k]] + s[k + 1..]);
    MapJoined(f, [s[k]], s[k + 1..]);
  }

  /** Rearranging a list rearranges its image. */
  lemma {:induction false} MapRearranged<A, B>(f: A -> B, a: seq<A>, b: seq<A>)
    requires multiset(a) == multiset(b)
    ensures multiset(Map(f, a)) == multiset(Map(f, b))
    decreases |a|
  {
    assert |multiset(a)| == |multiset(b)|;
    if a != [] {
      assert a[0] in multiset(b);
      var k :| 0 <= k < |b| && b[k] == a[0];
      SameRest(a, b, k);
      MapRearranged(f, a[1..], b[..k] + b[k + 1..]);
      MapPulledOut(f, b, k);
    }
  }
}
