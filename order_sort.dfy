/**
 * The stable ascending sort by an `Order` key that the normalisers apply to
 * CMS components: `arr.sort((a, b) => a.order - b.order)`. JavaScript's
 * `Array.prototype.sort` is stable, so entries with equal keys keep their
 * input order. Modelled as an insertion sort, with its specification stated
 * independently: the result is sorted, and for every key the entries having
 * that key appear in the same order as in the input.
 */
module OrderSort {

  /** Ascending by `key`. */
  ghost predicate Sorted<T>(s: seq<T>, key: T -> int) {
    forall i, j :: 0 <= i < j < |s| ==> key(s[i]) <= key(s[j])
  }

  /** The entries of `s` whose key is `k`, in the order they occur in `s`. */
  function Having<T>(s: seq<T>, key: T -> int, k: int): (r: seq<T>)
    ensures |r| <= |s|
  {
    if s == [] then []
    else (if key(s[0]) == k then [s[0]] else []) + Having(s[1..], key, k)
  }

  /** Stability: every group of equal keys keeps its relative order. */
  ghost predicate SameGroups<T>(r: seq<T>, s: seq<T>, key: T -> int) {
    forall k :: Having(r, key, k) == Having(s, key, k)
  }

  /** Inserts `x` into the sorted `t` in front of every entry whose key is not smaller. */
  function Insert<T>(x: T, t: seq<T>, key: T -> int): (r: seq<T>)
    ensures multiset(r) == multiset([x] + t)
    ensures |r| == |t| + 1
    ensures r[0] == x || (t != [] && r[0] == t[0])
    ensures Sorted(t, key) ==> Sorted(r, key)
  {
    if t == [] || key(x) <= key(t[0]) then [x] + t
    else
      var rest := Insert(x, t[1..], key);
      assert t == [t[0]] + t[1..];
      [t[0]] + rest
  }

  /** The stable ascending sort of `s` by `key`. */
  function SortByKey<T>(s: seq<T>, key: T -> int): (r: seq<T>)
    ensures |r| == |s|
    ensures multiset(r) == multiset(s)
    ensures Sorted(r, key)
  {
    if s == [] then []
    else
      assert s == [s[0]] + s[1..];
      Insert(s[0], SortByKey(s[1..], key), key)
  }

  lemma {:induction false} HavingAppend<T>(a: seq<T>, b: seq<T>, key: T -> int, k: int)
    ensures Having(a + b, key, k) == Having(a, key, k) + Having(b, key, k)
  {
    if a == [] {
      assert a + b == b;
    } else {
      var h := if key(a[0]) == k then [a[0]] else [];
      assert (a + b)[0] == a[0] && (a + b)[1..] == a[1..] + b;
      assert Having(a + b, key, k) == h + Having(a[1..] + b, key, k);
      HavingAppend(a[1..], b, key, k);
      assert Having(a, key, k) == h + Having(a[1..], key, k);
    }
  }

  /** Inserting `x` puts it in front of every entry of `t` with the same key. */
  lemma {:induction false} HavingInsert<T>(x: T, t: seq<T>, key: T -> int, k: int)
    requires Sorted(t, key)
    ensures Having(Insert(x, t, key), key, k)
         == (if key(x) == k then [x] else []) + Having(t, key, k)
  {
    if t == [] || key(x) <= key(t[0]) {
      assert Insert(x, t, key) == [x] + t;
      HavingAppend([x], t, key, k);
    } else {
      HavingInsert(x, t[1..], key, k);
      assert Insert(x, t, key) == [t[0]] + Insert(x, t[1..], key);
      HavingAppend([t[0]], Insert(x, t[1..], key), key, k);
      HavingAppend([t[0]], t[1..], key, k);
      assert t == [t[0]] + t[1..];
    }
  }

  /** The sort is stable: for every key, the entries with that key keep their input order. */
  lemma {:induction false} SortByKeyStable<T>(s: seq<T>, key: T -> int)
    ensures SameGroups(SortByKey(s, key), s, key)
  {
    if s != [] {
      SortByKeyStable(s[1..], key);
      forall k ensures Having(SortByKey(s, key), key, k) == Having(s, key, k) {
        HavingInsert(s[0], SortByKey(s[1..], key), key, k);
        HavingAppend([s[0]], s[1..], key, k);
        assert s == [s[0]] + s[1..];
      }
    }
  }

  lemma HavingFirst<T>(s: seq<T>, key: T -> int)
    requires s != []
    ensures Having(s, key, key(s[0])) != []
    ensures Having(s, key, key(s[0]))[0] == s[0]
  {
  }

  lemma {:induction false} HavingNonEmpty<T>(s: seq<T>, key: T -> int, k: int)
    requires Having(s, key, k) != []
    ensures exists i :: 0 <= i < |s| && key(s[i]) == k
  {
    if key(s[0]) != k {
      HavingNonEmpty(s[1..], key, k);
      var i :| 0 <= i < |s[1..]| && key(s[1..][i]) == k;
      assert key(s[i + 1]) == k;
    }
  }

  /** Two sorted arrangements with the same groups start with the same entry. */
  lemma SameGroupsHead<T>(r1: seq<T>, r2: seq<T>, key: T -> int)
    requires Sorted(r1, key) && Sorted(r2, key)
    requires SameGroups(r1, r2, key)
    requires r1 != []
    ensures r2 != [] && r1[0] == r2[0]
  {
    var k1 := key(r1[0]);
    HavingFirst(r1, key);
    assert Having(r2, key, k1) != [];
    HavingNonEmpty(r2, key, k1);
    var k2 := key(r2[0]);
    HavingFirst(r2, key);
    assert Having(r1, key, k2) != [];
    HavingNonEmpty(r1, key, k2);
    assert k1 == k2;
    assert r1[0] == Having(r1, key, k1)[0] == Having(r2, key, k1)[0] == r2[0];
  }

  lemma SameGroupsTail<T>(r1: seq<T>, r2: seq<T>, key: T -> int)
    requires SameGroups(r1, r2, key)
    requires r1 != [] && r2 != [] && r1[0] == r2[0]
    ensures SameGroups(r1[1..], r2[1..], key)
  {
    forall k ensures Having(r1[1..], key, k) == Having(r2[1..], key, k) {
      var head := if key(r1[0]) == k then [r1[0]] else [];
      assert Having(r1, key, k) == head + Having(r1[1..], key, k);
      assert Having(r2, key, k) == head + Having(r2[1..], key, k);
      assert Having(r1[1..], key, k) == (head + Having(r1[1..], key, k))[|head|..];
      assert Having(r2[1..], key, k) == (head + Having(r2[1..], key, k))[|head|..];
    }
  }

  /**
   * A stable sort is unique: any sorted arrangement with the same groups as
   * `s` is the result of `SortByKey`. So `SortByKey` is exactly "the stable
   * ascending sort", whatever algorithm computes it.
   */
  lemma {:induction false} StableSortUnique<T>(r1: seq<T>, r2: seq<T>, key: T -> int)
    requires Sorted(r1, key) && Sorted(r2, key)
    requires SameGroups(r1, r2, key)
    ensures r1 == r2
    decreases |r1|
  {
    if r1 == [] {
      if r2 != [] {
        SameGroupsHead(r2, r1, key);
      }
    } else {
      SameGroupsHead(r1, r2, key);
      SameGroupsTail(r1, r2, key);
      StableSortUnique(r1[1..], r2[1..], key);
      assert r1 == [r1[0]] + r1[1..] && r2 == [r2[0]] + r2[1..];
    }
  }

  /** Already sorted input (for instance, all `Order` values missing) comes back unchanged. */
  lemma SortedUnchanged<T>(s: seq<T>, key: T -> int)
    requires Sorted(s, key)
    ensures SortByKey(s, key) == s
  {
    SortByKeyStable(s, key);
    StableSortUnique(SortByKey(s, key), s, key);
  }

  /** Three entries out of order: the sort worked out by hand. */
  lemma SortThree<T>(x: T, y: T, z: T, key: T -> int)
    requires key(y) <= key(z) < key(x)
    ensures SortByKey([x, y, z], key) == [y, z, x]
  {
    assert SortByKey([z], key) == [z] by {
      assert [z][1..] == [];
    }
    assert SortByKey([y, z], key) == [y, z] by {
      assert [y, z][1..] == [z];
      assert Insert(y, [z], key) == [y, z];
    }
    assert Insert(x, [y, z], key) == [y, z, x] by {
      assert [y, z][1..] == [z] && [z][1..] == [];
      assert Insert(x, [], key) == [x];
      assert Insert(x, [z], key) == [z] + [x];
      assert Insert(x, [y, z], key) == [y] + Insert(x, [z], key);
    }
    assert [x, y, z][1..] == [y, z];
  }
}
