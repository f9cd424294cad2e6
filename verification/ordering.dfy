/**
 * Stable ordering by an integer key: what a sorted map of insertion-ordered
 * buckets yields (the camera's draw list) and what `Collections.sort` yields
 * for a comparison that only looks at one integer (the high-score list).
 *
 * `Of(s, key, k)` is the sub-list of `s` filed under key `k`. A list is a
 * stable sort of `s` when its keys never decrease and it files the same
 * sub-list as `s` under every key. The insertion sort `SortByKey` is the
 * reference, and `SortedUnique` shows there is only one such list.
 */
module Ordering {

  /** The elements of `s` whose key is `k`, in their order in `s`. */
  function Of<T>(s: seq<T>, key: T -> int, k: int): (r: seq<T>)
    ensures |r| <= |s|
    decreases |s|
  {
    if |s| == 0 then []
    else Of(s[..|s| - 1], key, k) + (if key(s[|s| - 1]) == k then [s[|s| - 1]] else [])
  }

  /** Everything filed under `k` carries key `k`. */
  lemma {:induction false} OfKeys<T>(s: seq<T>, key: T -> int, k: int)
    ensures forall i :: 0 <= i < |Of(s, key, k)| ==> key(Of(s, key, k)[i]) == k
    decreases |s|
  {
    if |s| > 0 {
      OfKeys(s[..|s| - 1], key, k);
    }
  }

  /** Keys never decrease along the list. */
  predicate Sorted<T>(s: seq<T>, key: T -> int) {
    forall i, j :: 0 <= i < j < |s| ==> key(s[i]) <= key(s[j])
  }

  /** `r` is `s` stably sorted: in key order, and each key's elements in their order in `s`. */
  ghost predicate StablySorted<T>(r: seq<T>, s: seq<T>, key: T -> int) {
    Sorted(r, key) && forall k :: Of(r, key, k) == Of(s, key, k)
  }

  /** Appending one element files it under its own key, after what was there. */
  lemma OfSnoc<T>(s: seq<T>, e: T, key: T -> int, k: int)
    ensures Of(s + [e], key, k) == Of(s, key, k) + (if key(e) == k then [e] else [])
  {
    assert (s + [e])[..|s|] == s;
  }

  /** Filing a concatenation files each part in turn. */
  lemma {:induction false} OfAppend<T>(a: seq<T>, b: seq<T>, key: T -> int, k: int)
    ensures Of(a + b, key, k) == Of(a, key, k) + Of(b, key, k)
    decreases |b|
  {
    if |b| == 0 {
      assert a + b == a;
    } else {
      var b' := b[..|b| - 1];
      var e := b[|b| - 1];
      assert b == b' + [e];
      assert a + b == (a + b') + [e];
      OfAppend(a, b', key, k);
      OfSnoc(a + b', e, key, k);
      OfSnoc(b', e, key, k);
    }
  }

  /** A list whose elements all carry key `k` files all of itself under `k` and nothing elsewhere. */
  lemma {:induction false} OfUniform<T>(s: seq<T>, key: T -> int, k: int, k': int)
    requires forall i :: 0 <= i < |s| ==> key(s[i]) == k
    ensures Of(s, key, k') == if k' == k then s else []
    decreases |s|
  {
    if |s| > 0 {
      var s' := s[..|s| - 1];
      OfUniform(s', key, k, k');
      assert s == s' + [s[|s| - 1]];
    }
  }

  /** A key files something exactly when some element carries it. */
  lemma {:induction false} OfNonEmpty<T>(s: seq<T>, key: T -> int, k: int)
    ensures Of(s, key, k) != [] <==> exists i :: 0 <= i < |s| && key(s[i]) == k
    decreases |s|
  {
    if |s| > 0 {
      var s' := s[..|s| - 1];
      OfNonEmpty(s', key, k);
      if exists i :: 0 <= i < |s'| && key(s'[i]) == k {
        var i :| 0 <= i < |s'| && key(s'[i]) == k;
        assert s[i] == s'[i];
      }
      if exists i :: 0 <= i < |s| && key(s[i]) == k {
        var i :| 0 <= i < |s| && key(s[i]) == k;
        if i < |s| - 1 {
          assert s'[i] == s[i];
        }
      }
    }
  }

  lemma CancelLast<T>(x: seq<T>, y: seq<T>, e: T, f: T)
    requires x + [e] == y + [f]
    ensures x == y && e == f
  {
    assert x == (x + [e])[..|x|];
    assert y == (y + [f])[..|y|];
    assert e == (x + [e])[|x|];
    assert f == (y + [f])[|y|];
  }

  lemma Unsnoc<T>(s: seq<T>)
    requires |s| > 0
    ensures s == s[..|s| - 1] + [s[|s| - 1]]
  {
  }

  lemma SortedPrefix<T>(s: seq<T>, key: T -> int)
    requires Sorted(s, key) && |s| > 0
    ensures Sorted(s[..|s| - 1], key)
  {
  }

  /** The last element's key files something. */
  lemma LastKeyFiled<T>(s: seq<T>, key: T -> int)
    requires |s| > 0
    ensures Of(s, key, key(s[|s| - 1])) != []
  {
    var e := s[|s| - 1];
    assert Of(s, key, key(e)) == Of(s[..|s| - 1], key, key(e)) + [e];
  }

  /** A list that files nothing under any key is empty. */
  lemma NothingFiled<T>(s: seq<T>, key: T -> int)
    ensures (forall k :: Of(s, key, k) == []) ==> s == []
  {
    if |s| > 0 {
      OfNonEmpty(s, key, key(s[|s| - 1]));
    }
  }

  /** Where a key files something, some element carries it: the index of the last such element. */
  lemma {:induction false} FiledAt<T>(s: seq<T>, key: T -> int, k: int) returns (i: nat)
    requires Of(s, key, k) != []
    ensures i < |s| && key(s[i]) == k
    decreases |s|
  {
    var s' := s[..|s| - 1];
    if key(s[|s| - 1]) == k {
      i := |s| - 1;
    } else {
      assert Of(s, key, k) == Of(s', key, k) + [];
      i := FiledAt(s', key, k);
      assert s'[i] == s[i];
    }
  }

  /** The last key of `a` is filed in the sorted `b`, so it is at most `b`'s last key. */
  lemma LastKeyBelow<T>(a: seq<T>, b: seq<T>, key: T -> int)
    requires Sorted(b, key) && |a| > 0 && |b| > 0
    requires Of(a, key, key(a[|a| - 1])) == Of(b, key, key(a[|a| - 1]))
    ensures key(a[|a| - 1]) <= key(b[|b| - 1])
  {
    var ka := key(a[|a| - 1]);
    LastKeyFiled(a, key);
    var ib := FiledAt(b, key, ka);
    SortedBelowLast(b, key, ib);
  }

  lemma SortedBelowLast<T>(b: seq<T>, key: T -> int, i: nat)
    requires Sorted(b, key) && i < |b|
    ensures key(b[i]) <= key(b[|b| - 1])
  {
    if i < |b| - 1 {
      assert key(b[i]) <= key(b[|b| - 1]);
    }
  }

  lemma LastElemsMatch<T>(a': seq<T>, b': seq<T>, la: T, lb: T, key: T -> int)
    requires key(la) == key(lb) && Of(a' + [la], key, key(la)) == Of(b' + [lb], key, key(la))
    ensures la == lb
  {
    OfSnoc(a', la, key, key(la));
    OfSnoc(b', lb, key, key(la));
    CancelLast(Of(a', key, key(la)), Of(b', key, key(la)), la, lb);
  }

  /** Two sorted non-empty lists filing the same under their last keys end alike. */
  lemma SameLast<T>(a: seq<T>, b: seq<T>, key: T -> int)
    requires Sorted(a, key) && Sorted(b, key) && |a| > 0 && |b| > 0
    requires Of(a, key, key(a[|a| - 1])) == Of(b, key, key(a[|a| - 1]))
    requires Of(a, key, key(b[|b| - 1])) == Of(b, key, key(b[|b| - 1]))
    ensures a[|a| - 1] == b[|b| - 1]
  {
    LastKeyBelow(a, b, key);
    LastKeyBelow(b, a, key);
    var la := a[|a| - 1];
    var lb := b[|b| - 1];
    var a' := a[..|a| - 1];
    var b' := b[..|b| - 1];
    Unsnoc(a);
    Unsnoc(b);
    LastElemsMatch(a', b', la, lb, key);
  }

  /** Lists that agree on every key after one common last element agree without it. */
  lemma SamePrefix<T>(a': seq<T>, b': seq<T>, l: T, key: T -> int)
    requires forall k :: Of(a' + [l], key, k) == Of(b' + [l], key, k)
    ensures forall k :: Of(a', key, k) == Of(b', key, k)
  {
    forall k
      ensures Of(a', key, k) == Of(b', key, k)
    {
      OfSnoc(a', l, key, k);
      OfSnoc(b', l, key, k);
      assert Of(a' + [l], key, k) == Of(b' + [l], key, k);
      if key(l) == k {
        CancelLast(Of(a', key, k), Of(b', key, k), l, l);
      } else {
        assert Of(a', key, k) + [] == Of(b', key, k) + [];
        assert Of(a', key, k) + [] == Of(a', key, k);
        assert Of(b', key, k) + [] == Of(b', key, k);
      }
    }
  }

  /**
   * A sorted list is determined by what it files under each key: two
   * stable sorts of the same list are the same list.
   */
  lemma {:induction false} SortedUnique<T>(a: seq<T>, b: seq<T>, key: T -> int)
    requires Sorted(a, key) && Sorted(b, key)
    requires forall k :: Of(a, key, k) == Of(b, key, k)
    ensures a == b
    decreases |a|
  {
    if |a| == 0 {
      NothingFiled(b, key);
    } else {
      var ka := key(a[|a| - 1]);
      LastKeyFiled(a, key);
      assert Of(b, key, ka) != [];
      assert |b| > 0;
      var kb := key(b[|b| - 1]);
      assert Of(a, key, ka) == Of(b, key, ka) && Of(a, key, kb) == Of(b, key, kb);
      SameLast(a, b, key);
      var l := a[|a| - 1];
      var a' := a[..|a| - 1];
      var b' := b[..|b| - 1];
      SortedPrefix(a, key);
      SortedPrefix(b, key);
      Unsnoc(a);
      Unsnoc(b);
      SamePrefix(a', b', l, key);
      SortedUnique(a', b', key);
    }
  }

  // --------------------------------------- reference: sort by insertion

  /** Insert after every element whose key is not greater. */
  function Insert<T>(s: seq<T>, e: T, key: T -> int): (r: seq<T>)
    ensures |r| == |s| + 1 && multiset(r) == multiset(s) + multiset{e}
    decreases |s|
  {
    if |s| == 0 then [e]
    else
      var last := s[|s| - 1];
      var s' := s[..|s| - 1];
      assert s == s' + [last];
      if key(last) <= key(e) then s + [e]
      else Insert(s', e, key) + [last]
  }

  /** Every element of an insertion is the new one or an old one. */
  lemma InsertFrom<T>(s: seq<T>, e: T, key: T -> int, i: int)
    requires 0 <= i < |Insert(s, e, key)|
    ensures Insert(s, e, key)[i] == e || Insert(s, e, key)[i] in s
  {
    var r := Insert(s, e, key);
    assert r[i] in multiset(r);
  }

  /** Insertion keeps a sorted list sorted. */
  lemma {:induction false} InsertSorted<T>(s: seq<T>, e: T, key: T -> int)
    requires Sorted(s, key)
    ensures Sorted(Insert(s, e, key), key)
    decreases |s|
  {
    if |s| > 0 {
      var last := s[|s| - 1];
      var s' := s[..|s| - 1];
      Unsnoc(s);
      if key(last) > key(e) {
        var r' := Insert(s', e, key);
        InsertSorted(s', e, key);
        forall i | 0 <= i < |r'|
          ensures key(r'[i]) <= key(last)
        {
          InsertFrom(s', e, key, i);
        }
        assert Insert(s, e, key) == r' + [last];
      }
    }
  }

  /** Inserting files the new element after those already under its key. */
  lemma {:induction false} InsertOf<T>(s: seq<T>, e: T, key: T -> int, k: int)
    ensures Of(Insert(s, e, key), key, k) == Of(s, key, k) + (if key(e) == k then [e] else [])
    decreases |s|
  {
    if |s| == 0 {
      OfSnoc([], e, key, k);
    } else {
      var last := s[|s| - 1];
      var s' := s[..|s| - 1];
      assert s == s' + [last];
      if key(last) <= key(e) {
        OfSnoc(s, e, key, k);
      } else {
        var r' := Insert(s', e, key);
        InsertOf(s', e, key, k);
        OfSnoc(r', last, key, k);
        OfSnoc(s', last, key, k);
      }
    }
  }

  /** Insertion sort by key: sorted, a permutation, and stable. */
  function SortByKey<T>(s: seq<T>, key: T -> int): (r: seq<T>)
    ensures Sorted(r, key) && |r| == |s| && multiset(r) == multiset(s)
    decreases |s|
  {
    if |s| == 0 then []
    else
      var s' := s[..|s| - 1];
      assert s == s' + [s[|s| - 1]];
      InsertSorted(SortByKey(s', key), s[|s| - 1], key);
      Insert(SortByKey(s', key), s[|s| - 1], key)
  }

  /** The insertion sort is stable: each key's elements keep their order. */
  lemma {:induction false} SortByKeyOf<T>(s: seq<T>, key: T -> int, k: int)
    ensures Of(SortByKey(s, key), key, k) == Of(s, key, k)
    decreases |s|
  {
    if |s| > 0 {
      var s' := s[..|s| - 1];
      var e := s[|s| - 1];
      SortByKeyOf(s', key, k);
      InsertOf(SortByKey(s', key), e, key, k);
      assert SortByKey(s, key) == Insert(SortByKey(s', key), e, key);
      assert Of(s, key, k) == Of(s', key, k) + (if key(e) == k then [e] else []);
    }
  }

  /** The insertion sort is a stable sort, and the only one. */
  lemma SortByKeyStable<T>(s: seq<T>, key: T -> int)
    ensures StablySorted(SortByKey(s, key), s, key)
    ensures forall r :: StablySorted(r, s, key) ==> r == SortByKey(s, key)
  {
    forall k
      ensures Of(SortByKey(s, key), key, k) == Of(s, key, k)
    {
      SortByKeyOf(s, key, k);
    }
    forall r | StablySorted(r, s, key)
      ensures r == SortByKey(s, key)
    {
      SortedUnique(r, SortByKey(s, key), key);
    }
  }
}
