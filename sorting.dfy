/** `Array.prototype.toSorted` with a consistent comparator, as a stable
    insertion sort. The comparator is a total preorder `le` ("a sorts no later
    than b"). */
module Sorting {

  ghost predicate TotalPreorder<T(!new)>(le: (T, T) -> bool)
  {
    && (forall a, b :: le(a, b) || le(b, a))
    && (forall a, b, c :: le(a, b) && le(b, c) ==> le(a, c))
  }

  predicate SortedBy<T>(s: seq<T>, le: (T, T) -> bool)
  {
    forall i, j :: 0 <= i < j < |s| ==> le(s[i], s[j])
  }

  /** Inserts `x` in front of the first element it sorts no later than. */
  function Insert<T>(x: T, s: seq<T>, le: (T, T) -> bool): (r: seq<T>)
    ensures multiset(r) == multiset(s) + multiset{x}
  {
    if s == [] then [x]
    else if le(x, s[0]) then [x] + s
    else
      assert [s[0]] + s[1..] == s;
      [s[0]] + Insert(x, s[1..], le)
  }

  /** Inserting into a sorted sequence keeps it sorted. */
  lemma {:induction false} InsertSorted<T(!new)>(x: T, s: seq<T>, le: (T, T) -> bool)
    requires TotalPreorder(le) && SortedBy(s, le)
    ensures SortedBy(Insert(x, s, le), le)
  {
    if s != [] && !le(x, s[0]) {
      var rest := Insert(x, s[1..], le);
      assert SortedBy(s[1..], le);
      InsertSorted(x, s[1..], le);
      assert le(s[0], x);
      forall j | 0 <= j < |rest|
        ensures le(s[0], rest[j])
      {
        assert rest[j] in multiset(rest);
        assert rest[j] == x || rest[j] in multiset(s[1..]);
        if rest[j] != x {
          assert rest[j] in s[1..];
        }
      }
    } else if s != [] {
      forall j | 0 < j < |s| ensures le(x, s[j]) {
        assert le(s[0], s[j]);
      }
    }
  }

  /** The input, reordered so that it is sorted by `le`. */
  function SortBy<T(!new)>(s: seq<T>, le: (T, T) -> bool): (r: seq<T>)
    requires TotalPreorder(le)
    ensures multiset(r) == multiset(s)
    ensures SortedBy(r, le)
  {
    if s == [] then []
    else
      assert [s[0]] + s[1..] == s;
      InsertSorted(s[0], SortBy(s[1..], le), le);
      Insert(s[0], SortBy(s[1..], le), le)
  }

  /** Ascending integer order, `(a, b) => a - b`. */
  function IntLe(): (le: (int, int) -> bool)
    ensures TotalPreorder(le)
  {
    (a: int, b: int) => a <= b
  }

  /** Compares two elements by a key of theirs, as `(a, b) => cmp(a[1], b[1])`
      does; a total preorder on the keys gives one on the elements. */
  function ByKey<T(!new), K(!new)>(le: (K, K) -> bool, key: T -> K): (r: (T, T) -> bool)
    requires TotalPreorder(le)
    ensures TotalPreorder(r)
  {
    (a: T, b: T) => le(key(a), key(b))
  }
}
