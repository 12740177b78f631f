/** Types shared by every part of the model: machine integers as bounded
    integers, a roaring bitmap as the finite set of slots it contains, and the
    usual option and result wrappers. */
module Base {

  type U8 = x: int | 0 <= x < 256
  type U32 = x: int | 0 <= x < 0x1_0000_0000
  type U64 = x: int | 0 <= x < 0x1_0000_0000_0000_0000
  type I64 = x: int | -0x8000_0000_0000_0000 <= x < 0x8000_0000_0000_0000

  /** A RoaringBitmap: the set of slots it holds. */
  type Bitmap = set<U32>

  datatype Option<+T> = None | Some(value: T) {
    predicate IsFailure() {
      None?
    }

    function PropagateFailure<U>(): Option<U>
      requires None?
    {
      None
    }

    function Extract(): T
      requires Some?
    {
      value
    }
  }

  datatype Result<+T, +E> = Ok(value: T) | Err(error: E)

  function Min(a: nat, b: nat): nat {
    if a <= b then a else b
  }

  /** The first `n` elements, or all of them (`iter().take(n)`). */
  function Take<T>(s: seq<T>, n: nat): seq<T> {
    s[..Min(n, |s|)]
  }

  function Pow2(n: nat): (p: nat)
    ensures p >= 1
  {
    if n == 0 then 1 else 2 * Pow2(n - 1)
  }

  /** The elements of a list, as a set. */
  function Elements<T>(s: seq<T>): set<T> {
    set x | x in s
  }

  lemma OnlyZeroMultiple(a: int, d: int)
    requires -d < a * d < d
    ensures a == 0
  {
    assert a >= 1 ==> a * d >= d;
    assert a <= -1 ==> a * d <= -d;
  }

  /** A number written as quotient and remainder has that quotient and remainder. */
  lemma Quotient(q: int, d: int, r: int)
    requires 0 <= r < d
    ensures (q * d + r) / d == q
    ensures (q * d + r) % d == r
  {
    var n := q * d + r;
    var e := n / d;
    assert n == e * d + n % d;
    assert (e - q) * d == e * d - q * d;
    OnlyZeroMultiple(e - q, d);
  }

  /** Bookkeeping for a loop that visits the members of a set in any order. */
  lemma VisitOne<T>(all: set<T>, left: set<T>, x: T)
    requires left <= all && x in left
    ensures all - left + {x} == all - (left - {x})
    ensures |left - {x}| < |left|
  {
  }

  lemma HeadFirst<T>(s: seq<T>, t: seq<T>)
    requires s != []
    ensures s + t == [s[0]] + (s[1..] + t)
  {
  }

  lemma LastMoves<T>(s: seq<T>, x: T, t: seq<T>)
    ensures s + ([x] + t) == (s + [x]) + t
  {
  }

  lemma Associates<T>(a: seq<T>, b: seq<T>, c: seq<T>)
    ensures a + (b + c) == (a + b) + c
  {
  }

  lemma NothingAdded<T>(a: seq<T>)
    ensures [] + a == a && a + [] == a
  {
  }
}
