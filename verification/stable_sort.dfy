/**
 * `Array.prototype.sort` with a comparator that returns -1, 1 or 0 by
 * comparing one key per element, ascending or descending. The sort is stable
 * (ECMAScript 2019 and later), so it is modelled by a stable insertion sort:
 * what is proved here (ordered, a permutation, equal keys keep their relative
 * order) is what any stable sort with that comparator returns.
 */
module StableSort {
  import opened Order

  /** The comparator returns a negative number for (a, b): `a` goes first. */
  predicate Before<T>(a: T, b: T, key: T -> Key, desc: bool) {
    if desc then KeyLess(key(b), key(a)) else KeyLess(key(a), key(b))
  }

  /** Every pair in order: no later element goes strictly before an earlier one. */
  ghost predicate Ordered<T>(s: seq<T>, key: T -> Key, desc: bool) {
    forall i, j :: 0 <= i < j < |s| ==> !Before(s[j], s[i], key, desc)
  }

  /** The elements of `s` whose key is `k`, in their order in `s`. */
  function WithKey<T>(s: seq<T>, key: T -> Key, k: Key): (r: seq<T>)
    ensures |r| <= |s|
  {
    if s == [] then []
    else (if key(s[0]) == k then [s[0]] else []) + WithKey(s[1..], key, k)
  }

  /** Places `x` in front of the first element that does not go strictly before it. */
  function Insert<T>(x: T, s: seq<T>, key: T -> Key, desc: bool): (r: seq<T>)
    ensures multiset(r) == multiset(s) + multiset{x}
    ensures |r| == |s| + 1
  {
    if s == [] then [x]
    else if !Before(s[0], x, key, desc) then [x] + s
    else
      assert s == [s[0]] + s[1..];
      [s[0]] + Insert(x, s[1..], key, desc)
  }

  function Sort<T>(s: seq<T>, key: T -> Key, desc: bool): (r: seq<T>)
    ensures multiset(r) == multiset(s)
    ensures |r| == |s|
  {
    if s == [] then []
    else
      assert s == [s[0]] + s[1..];
      Insert(s[0], Sort(s[1..], key, desc), key, desc)
  }

  lemma BeforeAsymmetric<T>(a: T, b: T, key: T -> Key, desc: bool)
    requires Before(a, b, key, desc)
    ensures !Before(b, a, key, desc)
  {
    if Before(b, a, key, desc) {
      KeyLessTransitive(key(a), key(b), key(a));
      KeyLessIrreflexive(key(a));
    }
  }

  lemma NotBeforeTransitive<T>(a: T, b: T, c: T, key: T -> Key, desc: bool)
    requires !Before(b, a, key, desc) && !Before(c, b, key, desc)
    ensures !Before(c, a, key, desc)
  {
    if desc {
      NotLessTransitive(key(c), key(b), key(a));
    } else {
      NotLessTransitive(key(a), key(b), key(c));
    }
  }

  /** An element that no element of an ordered list goes before may lead it. */
  lemma ConsOrdered<T>(y: T, s: seq<T>, key: T -> Key, desc: bool)
    requires Ordered(s, key, desc)
    requires forall z :: z in s ==> !Before(z, y, key, desc)
    ensures Ordered([y] + s, key, desc)
  {
    var r := [y] + s;
    forall i, j | 0 <= i < j < |r| ensures !Before(r[j], r[i], key, desc) {
      if i == 0 {
        assert r[j] == s[j - 1];
      } else {
        assert r[i] == s[i - 1] && r[j] == s[j - 1];
      }
    }
  }

  lemma InsertElements<T>(x: T, s: seq<T>, key: T -> Key, desc: bool)
    ensures forall z :: z in Insert(x, s, key, desc) ==> z == x || z in s
  {
    forall z | z in Insert(x, s, key, desc) ensures z == x || z in s {
      assert z in multiset(Insert(x, s, key, desc));
    }
  }

  lemma {:induction false} InsertOrdered<T>(x: T, s: seq<T>, key: T -> Key, desc: bool)
    requires Ordered(s, key, desc)
    ensures Ordered(Insert(x, s, key, desc), key, desc)
    decreases |s|
  {
    if s == [] {
    } else if !Before(s[0], x, key, desc) {
      forall z | z in s ensures !Before(z, x, key, desc) {
        var m :| 0 <= m < |s| && s[m] == z;
        if m > 0 {
          assert !Before(s[m], s[0], key, desc);
          NotBeforeTransitive(x, s[0], z, key, desc);
        }
      }
      ConsOrdered(x, s, key, desc);
    } else {
      var rest := Insert(x, s[1..], key, desc);
      assert Ordered(s[1..], key, desc) by {
        forall i, j | 0 <= i < j < |s[1..]| ensures !Before(s[1..][j], s[1..][i], key, desc) {
          assert s[1..][i] == s[i + 1] && s[1..][j] == s[j + 1];
        }
      }
      InsertOrdered(x, s[1..], key, desc);
      InsertElements(x, s[1..], key, desc);
      forall z | z in rest ensures !Before(z, s[0], key, desc) {
        if z == x {
          BeforeAsymmetric(s[0], x, key, desc);
        } else {
          var m :| 0 <= m < |s[1..]| && s[1..][m] == z;
          assert s[m + 1] == z;
        }
      }
      ConsOrdered(s[0], rest, key, desc);
    }
  }

  /** The sort returns the elements in comparator order. */
  lemma {:induction false} SortOrdered<T>(s: seq<T>, key: T -> Key, desc: bool)
    ensures Ordered(Sort(s, key, desc), key, desc)
    decreases |s|
  {
    if s != [] {
      SortOrdered(s[1..], key, desc);
      InsertOrdered(s[0], Sort(s[1..], key, desc), key, desc);
    }
  }

  lemma WithKeyCons<T>(x: T, s: seq<T>, key: T -> Key, k: Key)
    ensures WithKey([x] + s, key, k) == (if key(x) == k then [x] else []) + WithKey(s, key, k)
  {
    assert ([x] + s)[1..] == s;
  }

  lemma {:induction false} InsertStable<T>(x: T, s: seq<T>, key: T -> Key, desc: bool, k: Key)
    ensures WithKey(Insert(x, s, key, desc), key, k)
         == (if key(x) == k then [x] else []) + WithKey(s, key, k)
    decreases |s|
  {
    if s == [] {
      WithKeyCons(x, [], key, k);
    } else if !Before(s[0], x, key, desc) {
      WithKeyCons(x, s, key, k);
    } else {
      InsertStable(x, s[1..], key, desc, k);
      WithKeyCons(s[0], Insert(x, s[1..], key, desc), key, k);
      if key(x) == k && key(s[0]) == k {
        KeyLessIrreflexive(k);
        assert false;
      }
    }
  }

  /**
   * Stability: the elements sharing any one key come out in the order they
   * went in, so the comparator's 0 keeps their prior relative order.
   */
  lemma {:induction false} SortStable<T>(s: seq<T>, key: T -> Key, desc: bool, k: Key)
    ensures WithKey(Sort(s, key, desc), key, k) == WithKey(s, key, k)
    decreases |s|
  {
    if s != [] {
      SortStable(s[1..], key, desc, k);
      InsertStable(s[0], Sort(s[1..], key, desc), key, desc, k);
    }
  }

  /** No two positions hold the same value. */
  ghost predicate Distinct<T>(s: seq<T>) {
    forall i, j :: 0 <= i < j < |s| ==> s[i] != s[j]
  }

  lemma {:induction false} InsertDistinct<T>(x: T, s: seq<T>, key: T -> Key, desc: bool)
    requires Distinct(s) && x !in s
    ensures Distinct(Insert(x, s, key, desc))
    decreases |s|
  {
    if s != [] && Before(s[0], x, key, desc) {
      InsertDistinct(x, s[1..], key, desc);
      var rest := Insert(x, s[1..], key, desc);
      assert s[0] !in multiset(rest);
    }
  }

  /** Sorting a sequence without repeated values repeats none. */
  lemma {:induction false} SortDistinct<T>(s: seq<T>, key: T -> Key, desc: bool)
    requires Distinct(s)
    ensures Distinct(Sort(s, key, desc))
    decreases |s|
  {
    if s != [] {
      SortDistinct(s[1..], key, desc);
      assert s[0] !in multiset(s[1..]);
      assert s[0] !in multiset(Sort(s[1..], key, desc));
      InsertDistinct(s[0], Sort(s[1..], key, desc), key, desc);
    }
  }

  /** `slice(0, n)`: the first `n` elements, or all of them when there are fewer. */
  function Take<T>(s: seq<T>, n: nat): (r: seq<T>)
    ensures |r| == if |s| <= n then |s| else n
    ensures forall i :: 0 <= i < |r| ==> r[i] == s[i]
  {
    if |s| <= n then s else s[..n]
  }
}
