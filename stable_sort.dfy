/** `Array.prototype.sort` with a numeric comparator `(a, b) => key(a) - key(b)`.
    ECMAScript requires that sort to be stable, so its result is fixed by the
    input: the stable sort by key, given here as an insertion sort on
    sequences. `SortedStableUnique` shows that nothing else is sorted and
    keeps the order of every group of equal keys. */
module StableSort {

  /** `s` is non-decreasing by `key`. */
  predicate SortedBy<T>(s: seq<T>, key: T -> int) {
    forall i, j :: 0 <= i < j < |s| ==> key(s[i]) <= key(s[j])
  }

  /** The elements of `s` whose key is `k`, in their order in `s`. */
  function WithKey<T>(s: seq<T>, key: T -> int, k: int): (r: seq<T>)
    ensures |r| <= |s|
  {
    if s == [] then []
    else (if key(s[0]) == k then [s[0]] else []) + WithKey(s[1..], key, k)
  }

  /** The index of the first element of `s` whose key is not smaller than
      the key of `x` (or `|s|` when there is none). */
  function InsertionPoint<T>(x: T, s: seq<T>, key: T -> int): (i: nat)
    ensures i <= |s|
    ensures forall j :: 0 <= j < i ==> key(s[j]) < key(x)
    ensures i < |s| ==> key(x) <= key(s[i])
  {
    if s == [] || key(x) <= key(s[0]) then 0 else 1 + InsertionPoint(x, s[1..], key)
  }

  /** Puts `x` in front of the first element whose key is not smaller. */
  function Insert<T>(x: T, s: seq<T>, key: T -> int): (r: seq<T>)
    ensures multiset(r) == multiset(s) + multiset{x}
    ensures SortedBy(s, key) ==> SortedBy(r, key)
  {
    var i := InsertionPoint(x, s, key);
    assert s == s[..i] + s[i..];
    InsertKeepsSorted(x, s, key, i);
    s[..i] + [x] + s[i..]
  }

  /** Placing `x` at its insertion point of a sorted `s` keeps it sorted. */
  lemma InsertKeepsSorted<T>(x: T, s: seq<T>, key: T -> int, i: nat)
    requires i == InsertionPoint(x, s, key)
    ensures SortedBy(s, key) ==> SortedBy(s[..i] + [x] + s[i..], key)
  {
    if SortedBy(s, key) {
      var r := s[..i] + [x] + s[i..];
      assert forall p :: 0 <= p < |r| ==> r[p] == if p < i then s[p] else if p == i then x else s[p - 1];
      forall p, q | 0 <= p < q < |r|
        ensures key(r[p]) <= key(r[q])
      {
        if q == i {
          assert key(s[p]) < key(x);
        } else if p == i {
          assert key(x) <= key(s[i]);
        }
      }
    }
  }

  /** The stable sort of `s` by ascending `key`. */
  function SortBy<T>(s: seq<T>, key: T -> int): (r: seq<T>)
    ensures SortedBy(r, key)
    ensures multiset(r) == multiset(s)
  {
    if s == [] then []
    else
      assert s == [s[0]] + s[1..];
      Insert(s[0], SortBy(s[1..], key), key)
  }

  lemma {:induction false} WithKeyAppend<T>(a: seq<T>, b: seq<T>, key: T -> int, k: int)
    ensures WithKey(a + b, key, k) == WithKey(a, key, k) + WithKey(b, key, k)
  {
    if a != [] {
      assert (a + b)[1..] == a[1..] + b;
      WithKeyAppend(a[1..], b, key, k);
    } else {
      assert a + b == b;
    }
  }

  /** No element of `s` has key `k`, so the group of `k` is empty. */
  lemma {:induction false} WithKeyAbsent<T>(s: seq<T>, key: T -> int, k: int)
    requires forall j :: 0 <= j < |s| ==> key(s[j]) != k
    ensures WithKey(s, key, k) == []
  {
    if s != [] {
      WithKeyAbsent(s[1..], key, k);
    }
  }

  /** Placing `x` after elements of smaller keys adds it at the front of its
      own key group and leaves every other group alone. */
  lemma {:induction false} GroupsAfterPlacing<T>(pre: seq<T>, x: T, post: seq<T>, key: T -> int, k: int)
    requires forall j :: 0 <= j < |pre| ==> key(pre[j]) < key(x)
    ensures WithKey(pre + [x] + post, key, k)
         == (if key(x) == k then [x] else []) + WithKey(pre + post, key, k)
  {
    var xs := if key(x) == k then [x] else [];
    var a, b := WithKey(pre, key, k), WithKey(post, key, k);
    assert WithKey(pre + [x] + post, key, k) == a + xs + b by {
      assert WithKey([x], key, k) == xs by {
        assert [x][1..] == [];
      }
      WithKeyAppend(pre + [x], post, key, k);
      WithKeyAppend(pre, [x], key, k);
    }
    assert WithKey(pre + post, key, k) == a + b by {
      WithKeyAppend(pre, post, key, k);
    }
    if key(x) == k {
      WithKeyAbsent(pre, key, k);
      assert a + xs + b == xs + b;
    } else {
      assert a + xs + b == a + b;
    }
  }

  lemma InsertGroups<T>(x: T, s: seq<T>, key: T -> int, k: int)
    ensures WithKey(Insert(x, s, key), key, k)
         == (if key(x) == k then [x] else []) + WithKey(s, key, k)
  {
    var i := InsertionPoint(x, s, key);
    assert s == s[..i] + s[i..];
    GroupsAfterPlacing(s[..i], x, s[i..], key, k);
  }

  /** Every member of a key group is an element of `s` with that key. */
  lemma {:induction false} WithKeyMember<T>(s: seq<T>, key: T -> int, k: int, x: T)
    requires x in WithKey(s, key, k)
    ensures x in s && key(x) == k
  {
    if s != [] && !(x == s[0] && key(s[0]) == k) {
      WithKeyMember(s[1..], key, k, x);
    }
  }

  /** The first element of a sequence heads its own key group. */
  lemma WithKeyHead<T>(s: seq<T>, key: T -> int)
    ensures s != [] ==> WithKey(s, key, key(s[0])) == [s[0]] + WithKey(s[1..], key, key(s[0]))
  {
  }

  /** Stability: sorting keeps the order of the elements of every key. */
  lemma {:induction false} SortByStable<T>(s: seq<T>, key: T -> int, k: int)
    ensures WithKey(SortBy(s, key), key, k) == WithKey(s, key, k)
  {
    if s != [] {
      SortByStable(s[1..], key, k);
      InsertGroups(s[0], SortBy(s[1..], key), key, k);
    }
  }

  /** Two sequences sorted by `key` whose key groups agree are equal. */
  lemma {:induction false} SortedStableUnique<T>(r1: seq<T>, r2: seq<T>, key: T -> int)
    requires SortedBy(r1, key) && SortedBy(r2, key)
    requires forall k :: WithKey(r1, key, k) == WithKey(r2, key, k)
    ensures r1 == r2
    decreases |r1|
  {
    if r1 == [] || r2 == [] {
      // a first element on one side only would have a key group on one side only
      WithKeyHead(r1, key);
      WithKeyHead(r2, key);
      if r1 != [] || r2 != [] {
        assert false;
      }
    } else {
      var k1, k2 := key(r1[0]), key(r2[0]);
      assert k1 == k2 by {
        assert WithKey(r1, key, k1)[0] == r1[0];
        assert r1[0] in WithKey(r2, key, k1);
        WithKeyMember(r2, key, k1, r1[0]);
        var j :| 0 <= j < |r2| && r2[j] == r1[0];
        assert WithKey(r2, key, k2)[0] == r2[0];
        assert r2[0] in WithKey(r1, key, k2);
        WithKeyMember(r1, key, k2, r2[0]);
        var j' :| 0 <= j' < |r1| && r1[j'] == r2[0];
        assert key(r2[0]) <= key(r2[j]) && key(r1[0]) <= key(r1[j']);
      }
      assert r1[0] == r2[0] by {
        assert WithKey(r1, key, k1)[0] == r1[0];
        assert WithKey(r2, key, k1)[0] == r2[0];
      }
      forall k ensures WithKey(r1[1..], key, k) == WithKey(r2[1..], key, k) {
        var head := if k1 == k then [r1[0]] else [];
        assert WithKey(r1, key, k) == head + WithKey(r1[1..], key, k);
        assert WithKey(r2, key, k) == head + WithKey(r2[1..], key, k);
        assert WithKey(r1[1..], key, k) == WithKey(r1, key, k)[|head|..];
        assert WithKey(r2[1..], key, k) == WithKey(r2, key, k)[|head|..];
      }
      SortedStableUnique(r1[1..], r2[1..], key);
    }
  }

  /** Whatever a conforming `Array.prototype.sort` returns for this
      comparator is `SortBy`: the only sorted arrangement that keeps the
      order within every key group. */
  lemma SortByIsTheStableSort<T>(s: seq<T>, r: seq<T>, key: T -> int)
    requires SortedBy(r, key)
    requires forall k :: WithKey(r, key, k) == WithKey(s, key, k)
    ensures r == SortBy(s, key)
  {
    forall k ensures WithKey(r, key, k) == WithKey(SortBy(s, key), key, k) {
      SortByStable(s, key, k);
    }
    SortedStableUnique(r, SortBy(s, key), key);
  }
}
