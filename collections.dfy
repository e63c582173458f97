/** Small facts about sets and sequences used throughout the model. */
module Collections {

  /** An element of a non-empty set. */
  lemma Pick<T>(s: set<T>) returns (x: T)
    requires s != {}
    ensures x in s
  {
    if forall y :: y !in s {
      assert false;
    }
    x :| x in s;
  }

  /** A non-empty set of integers has an element to pick (for the
      such-that choices in functions). */
  lemma NonEmptyInts(s: set<int>)
    requires s != {}
    ensures exists x :: x in s
  {
    var x := Pick(s);
  }

  /** A sequence that holds each element of a set exactly once has no
      repeated element. */
  lemma NoRepeatsOfSetMultiset<T>(s: seq<T>, S: set<T>)
    requires multiset(s) == multiset(S)
    ensures forall i, j :: 0 <= i < j < |s| ==> s[i] != s[j]
  {
    forall i, j | 0 <= i < j < |s|
      ensures s[i] != s[j]
    {
      assert s == s[..j] + s[j..];
      assert multiset(s) == multiset(s[..j]) + multiset(s[j..]);
      var x := s[j];
      assert s[j..][0] == x;
      assert multiset(s[j..])[x] >= 1;
      assert multiset(s[..j])[x] >= (if s[i] == x then 1 else 0) by {
        assert s[..j][i] == s[i];
      }
      assert multiset(S)[x] <= 1;
    }
  }

  /** Updating a key of a union updates its right-hand side. */
  lemma UnionUpdate<K, V>(a: map<K, V>, b: map<K, V>, k: K, v: V)
    ensures (a + b)[k := v] == a + b[k := v]
  {
  }

  /** Taking one more key out of the keys still to visit adds its entry to
      what has been visited. */
  lemma OneMoreWritten<K, V>(m: map<K, V>, rest: set<K>, k: K)
    requires k in rest && rest <= m.Keys
    ensures m - (rest - {k}) == (m - rest)[k := m[k]]
  {
  }

  /** Taking no keys out of a map leaves it as it is. */
  lemma MinusNothing<K, V>(m: map<K, V>, s: set<K>)
    requires s == {}
    ensures m - s == m
  {
  }

  /** Taking no elements out of a set leaves it as it is. */
  lemma SetMinusNothing<T>(a: set<T>, s: set<T>)
    requires s == {}
    ensures a - s == a
  {
  }

  /** Appending an element new to the set a sequence enumerates gives an
      enumeration of the larger set. */
  lemma MultisetAddNew<T>(s: seq<T>, S: set<T>, x: T)
    requires multiset(s) == multiset(S) && x !in S
    ensures multiset(s + [x]) == multiset(S + {x})
  {
    assert multiset(S + {x}) == multiset(S) + multiset{x};
  }

  /** A prefix one element longer. */
  lemma SliceOneMore<T>(s: seq<T>, i: nat)
    requires i < |s|
    ensures s[..i + 1] == s[..i] + [s[i]]
  {
  }

  /** The prefix of full length is the whole sequence. */
  lemma WholeSlice<T>(s: seq<T>)
    ensures s[..|s|] == s
  {
  }

  /** Two maps with the same keys and the same values are equal. */
  lemma SameMap<K, V>(a: map<K, V>, b: map<K, V>)
    requires forall x :: x in a <==> x in b
    requires forall x :: x in a ==> a[x] == b[x]
    ensures a == b
  {
  }
}
