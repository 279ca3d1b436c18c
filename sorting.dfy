/**
 * `Array.prototype.sort` with a comparator, which the pages call on arrays
 * of leaderboard rows and tournaments. The comparators used compare a key
 * (a number, or a (year, month, day) date), so sorting is modelled by a key
 * that is a sequence of integers ordered lexicographically. The language
 * requires `sort` to be stable, and a stable sort by a total preorder has one
 * result; the model computes it by insertion, once as a function and once in
 * place on an array.
 */
module Sorting {
  import opened Seqs

  type Key = seq<int>

  /** Lexicographic order on keys. */
  predicate KeyLe(a: Key, b: Key)
    decreases |a|
  {
    if a == [] then true
    else if b == [] then false
    else a[0] < b[0] || (a[0] == b[0] && KeyLe(a[1..], b[1..]))
  }

  lemma {:induction false} KeyLeRefl(a: Key)
    ensures KeyLe(a, a)
    decreases |a|
  {
    if a != [] { KeyLeRefl(a[1..]); }
  }

  lemma {:induction false} KeyLeTotal(a: Key, b: Key)
    ensures KeyLe(a, b) || KeyLe(b, a)
    decreases |a|
  {
    if a != [] && b != [] { KeyLeTotal(a[1..], b[1..]); }
  }

  lemma {:induction false} KeyLeTrans(a: Key, b: Key, c: Key)
    requires KeyLe(a, b) && KeyLe(b, c)
    ensures KeyLe(a, c)
    decreases |a|
  {
    if a != [] && b != [] && c != [] && a[0] == b[0] == c[0] {
      KeyLeTrans(a[1..], b[1..], c[1..]);
    }
  }

  lemma {:induction false} KeyLeAntisym(a: Key, b: Key)
    requires KeyLe(a, b) && KeyLe(b, a)
    ensures a == b
    decreases |a|
  {
    if a != [] {
      KeyLeAntisym(a[1..], b[1..]);
      assert a == [a[0]] + a[1..] && b == [b[0]] + b[1..];
    }
  }

  /** Every element's key is at most the key of every later element. */
  ghost predicate SortedBy<T>(s: seq<T>, key: T -> Key) {
    forall i, j :: 0 <= i < j < |s| ==> KeyLe(key(s[i]), key(s[j]))
  }

  /** Insertion of `x` after every element whose key is at most its own. */
  function Insert<T>(s: seq<T>, x: T, key: T -> Key): (r: seq<T>)
    ensures |r| == |s| + 1
    ensures multiset(r) == multiset(s) + multiset{x}
  {
    if s == [] then [x]
    else if KeyLe(key(s[|s| - 1]), key(x)) then s + [x]
    else
      var init := s[..|s| - 1];
      assert s == init + [s[|s| - 1]];
      Insert(init, x, key) + [s[|s| - 1]]
  }

  /** The stable sort of `s` by `key`. */
  function SortBy<T>(s: seq<T>, key: T -> Key): (r: seq<T>)
    ensures multiset(r) == multiset(s)
    ensures |r| == |s|
  {
    if s == [] then []
    else
      var init := s[..|s| - 1];
      assert s == init + [s[|s| - 1]];
      Insert(SortBy(init, key), s[|s| - 1], key)
  }

  /** Sorting neither adds nor drops an element. */
  lemma SortByMember<T>(d: seq<T>, key: T -> Key, x: T)
    ensures x in SortBy(d, key) <==> x in d
  {
    var t := SortBy(d, key);
    assert x in t <==> x in multiset(t);
    assert x in d <==> x in multiset(d);
  }

  /** Every element of the sort is an element of the input. */
  lemma SortByOrigin<T>(d: seq<T>, key: T -> Key, k: int)
    requires 0 <= k < |SortBy(d, key)|
    ensures exists i :: 0 <= i < |d| && SortBy(d, key)[k] == d[i]
  {
    SortByMember(d, key, SortBy(d, key)[k]);
  }

  lemma {:induction false} InsertSorted<T>(s: seq<T>, x: T, key: T -> Key)
    requires SortedBy(s, key)
    ensures SortedBy(Insert(s, x, key), key)
  {
    if s != [] {
      var last := s[|s| - 1];
      var r := Insert(s, x, key);
      if KeyLe(key(last), key(x)) {
        forall i | 0 <= i < |s| ensures KeyLe(key(s[i]), key(x)) {
          if i < |s| - 1 { KeyLeTrans(key(s[i]), key(last), key(x)); } else { }
        }
      } else {
        var init := s[..|s| - 1];
        var r' := Insert(init, x, key);
        InsertSorted(init, x, key);
        KeyLeTotal(key(last), key(x));
        forall i | 0 <= i < |r'| ensures KeyLe(key(r'[i]), key(last)) {
          assert r'[i] in multiset(r');
          if r'[i] != x {
            assert r'[i] in multiset(init);
            var k :| 0 <= k < |init| && init[k] == r'[i];
            assert s[k] == init[k];
          }
        }
        assert r == r' + [last];
      }
    }
  }

  /** The result of the sort is ordered by key. */
  lemma {:induction false} SortBySorted<T>(s: seq<T>, key: T -> Key)
    ensures SortedBy(SortBy(s, key), key)
  {
    if s != [] {
      SortBySorted(s[..|s| - 1], key);
      InsertSorted(SortBy(s[..|s| - 1], key), s[|s| - 1], key);
    }
  }

  /** The elements of `s` whose key is `k`, in order. */
  function WithKey<T>(s: seq<T>, key: T -> Key, k: Key): seq<T> {
    if s == [] then []
    else WithKey(s[..|s| - 1], key, k) + (if key(s[|s| - 1]) == k then [s[|s| - 1]] else [])
  }

  lemma WithKeyOne<T>(x: T, key: T -> Key, k: Key)
    ensures WithKey([x], key, k) == if key(x) == k then [x] else []
  {
    assert [x][..0] == [];
  }

  lemma {:induction false} WithKeyAppend<T>(a: seq<T>, x: T, key: T -> Key, k: Key)
    ensures WithKey(a + [x], key, k) == WithKey(a, key, k) + WithKey([x], key, k)
  {
    assert (a + [x])[..|a|] == a;
    WithKeyOne(x, key, k);
  }

  /** An element inserted before `last` because its key is smaller never
      shares `last`'s key. */
  lemma KeysApart(last: Key, x: Key, k: Key)
    requires !KeyLe(last, x)
    ensures !(last == k && x == k)
  {
    KeyLeRefl(x);
  }

  /** One step of `Insert` on a sequence that ends in `last`. */
  lemma InsertSnoc<T>(init: seq<T>, last: T, x: T, key: T -> Key)
    ensures KeyLe(key(last), key(x)) ==> Insert(init + [last], x, key) == init + [last] + [x]
    ensures !KeyLe(key(last), key(x)) ==> Insert(init + [last], x, key) == Insert(init, x, key) + [last]
  {
    assert (init + [last])[..|init|] == init;
  }

  lemma {:induction false} InsertWithKey<T>(s: seq<T>, x: T, key: T -> Key, k: Key)
    ensures WithKey(Insert(s, x, key), key, k) == WithKey(s, key, k) + WithKey([x], key, k)
  {
    if s == [] {
      assert Insert(s, x, key) == [x] == s + [x];
      WithKeyAppend(s, x, key, k);
    } else {
      var init := s[..|s| - 1];
      var last := s[|s| - 1];
      assert init + [last] == s;
      if KeyLe(key(last), key(x)) {
        InsertSnoc(init, last, x, key);
        WithKeyAppend(s, x, key, k);
      } else {
        InsertWithKey(init, x, key, k);
        InsertWithKeyShifted(init, last, x, key, k);
      }
    }
  }

  lemma SwapEmpty<T>(a: seq<T>, b: seq<T>, c: seq<T>)
    requires b == [] || c == []
    ensures a + b + c == a + c + b
  {
    if b == [] { assert a + b == a; assert a + c + b == a + c; } else { assert a + c == a; }
  }

  /** The case of `InsertWithKey` where `x` goes before `last`. */
  lemma InsertWithKeyShifted<T>(init: seq<T>, last: T, x: T, key: T -> Key, k: Key)
    requires !KeyLe(key(last), key(x))
    requires WithKey(Insert(init, x, key), key, k) == WithKey(init, key, k) + WithKey([x], key, k)
    ensures WithKey(Insert(init + [last], x, key), key, k) == WithKey(init + [last], key, k) + WithKey([x], key, k)
  {
    var r := Insert(init, x, key);
    var wx, wl := WithKey([x], key, k), WithKey([last], key, k);
    calc {
      WithKey(Insert(init + [last], x, key), key, k);
      { InsertSnoc(init, last, x, key); }
      WithKey(r + [last], key, k);
      { WithKeyAppend(r, last, key, k); }
      WithKey(r, key, k) + wl;
      WithKey(init, key, k) + wx + wl;
      { WithKeyOne(x, key, k); WithKeyOne(last, key, k); KeysApart(key(last), key(x), k);
        SwapEmpty(WithKey(init, key, k), wx, wl); }
      WithKey(init, key, k) + wl + wx;
      { WithKeyAppend(init, last, key, k); }
      WithKey(init + [last], key, k) + wx;
    }
  }

  /** The sort is stable: elements with equal keys keep their relative order. */
  lemma {:induction false} SortByStable<T>(s: seq<T>, key: T -> Key, k: Key)
    ensures WithKey(SortBy(s, key), key, k) == WithKey(s, key, k)
  {
    if s != [] {
      var init := s[..|s| - 1];
      var last := s[|s| - 1];
      var t := SortBy(init, key);
      calc {
        WithKey(SortBy(s, key), key, k);
        WithKey(Insert(t, last, key), key, k);
        { InsertWithKey(t, last, key, k); }
        WithKey(t, key, k) + WithKey([last], key, k);
        { SortByStable(init, key, k); }
        WithKey(init, key, k) + WithKey([last], key, k);
        { WithKeyAppend(init, last, key, k); }
        WithKey(init + [last], key, k);
        { assert init + [last] == s; }
        WithKey(s, key, k);
      }
    }
  }

  /** Sorting only rearranges: any image of the sorted elements is a
      rearrangement of the same image of the input. */
  lemma {:induction false} SortByMap<T, U>(s: seq<T>, key: T -> Key, f: T -> U)
    ensures multiset(MapSeq(SortBy(s, key), f)) == multiset(MapSeq(s, f))
  {
    if s != [] {
      var n := |s| - 1;
      var init := s[..n];
      var sorted := SortBy(init, key);
      calc {
        multiset(MapSeq(SortBy(s, key), f));
        multiset(MapSeq(Insert(sorted, s[n], key), f));
        { InsertMap(sorted, s[n], key, f); }
        multiset(MapSeq(sorted, f)) + multiset{f(s[n])};
        { SortByMap(init, key, f); }
        multiset(MapSeq(init, f)) + multiset{f(s[n])};
        { MapSnoc(init, s[n], f); }
        multiset(MapSeq(init + [s[n]], f));
        { assert init + [s[n]] == s; }
        multiset(MapSeq(s, f));
      }
    }
  }

  lemma MapSnoc<T, U>(s: seq<T>, x: T, f: T -> U)
    ensures MapSeq(s + [x], f) == MapSeq(s, f) + [f(x)]
  {
    MapAppend(s, [x], f);
    assert MapSeq([x], f) == [f(x)];
  }

  lemma {:induction false} InsertMap<T, U>(s: seq<T>, x: T, key: T -> Key, f: T -> U)
    ensures multiset(MapSeq(Insert(s, x, key), f)) == multiset(MapSeq(s, f)) + multiset{f(x)}
  {
    if s == [] {
      assert MapSeq([x], f) == [f(x)];
    } else {
      var init := s[..|s| - 1];
      var last := s[|s| - 1];
      assert init + [last] == s;
      if KeyLe(key(last), key(x)) {
        MapSnoc(s, x, f);
      } else {
        InsertMap(init, x, key, f);
        InsertMapShifted(init, last, x, key, f);
      }
    }
  }

  /** The case of `InsertMap` where `x` goes before `last`. */
  lemma InsertMapShifted<T, U>(init: seq<T>, last: T, x: T, key: T -> Key, f: T -> U)
    requires !KeyLe(key(last), key(x))
    requires multiset(MapSeq(Insert(init, x, key), f)) == multiset(MapSeq(init, f)) + multiset{f(x)}
    ensures multiset(MapSeq(Insert(init + [last], x, key), f)) == multiset(MapSeq(init + [last], f)) + multiset{f(x)}
  {
    var r := Insert(init, x, key);
    calc {
      multiset(MapSeq(Insert(init + [last], x, key), f));
      { InsertSnoc(init, last, x, key); }
      multiset(MapSeq(r + [last], f));
      { MapSnoc(r, last, f); }
      multiset(MapSeq(r, f)) + multiset{f(last)};
      multiset(MapSeq(init, f)) + multiset{f(x)} + multiset{f(last)};
      { MapSnoc(init, last, f); }
      multiset(MapSeq(init + [last], f)) + multiset{f(x)};
    }
  }

  /** Inserting `x` at position `j` is the insertion of `x` when the keys
      before `j` are at most `x`'s and those from `j` on are greater. */
  lemma {:induction false} InsertAt<T>(s: seq<T>, x: T, key: T -> Key, j: nat)
    requires j <= |s|
    requires j == 0 || KeyLe(key(s[j - 1]), key(x))
    requires forall k :: j <= k < |s| ==> !KeyLe(key(s[k]), key(x))
    ensures Insert(s, x, key) == s[..j] + [x] + s[j..]
  {
    if j == |s| {
      assert s[..j] == s && s[j..] == [];
    } else {
      var init := s[..|s| - 1];
      var last := s[|s| - 1];
      assert !KeyLe(key(last), key(x));
      assert Insert(s, x, key) == Insert(init, x, key) + [last];
      forall k | j <= k < |init| ensures !KeyLe(key(init[k]), key(x)) {
        assert init[k] == s[k];
      }
      assert j == 0 || init[j - 1] == s[j - 1];
      InsertAt(init, x, key, j);
      SpliceLast(s, x, j, Insert(init, x, key));
    }
  }

  lemma SpliceLast<T>(s: seq<T>, x: T, j: nat, r: seq<T>)
    requires j < |s|
    requires r == s[..|s| - 1][..j] + [x] + s[..|s| - 1][j..]
    ensures r + [s[|s| - 1]] == s[..j] + [x] + s[j..]
  {
    assert s[..j] == s[..|s| - 1][..j];
    assert s[j..] == s[..|s| - 1][j..] + [s[|s| - 1]];
  }

  lemma SortByPrefix<T>(s: seq<T>, i: nat, key: T -> Key)
    requires i < |s|
    ensures SortBy(s[..i + 1], key) == Insert(SortBy(s[..i], key), s[i], key)
  {
    assert s[..i + 1][..i] == s[..i];
  }

  /** One step of the insertion sort: `a[i]` is moved into the sorted prefix
      `a[..i]`, shifting the greater elements one place right. */
  method InsertStep<T>(a: array<T>, i: nat, key: T -> Key)
    requires i < a.Length
    modifies a
    ensures a[..i + 1] == Insert(old(a[..i]), old(a[i]), key)
    ensures forall k :: i < k < a.Length ==> a[k] == old(a[k])
  {
    var x := a[i];
    ghost var sorted := a[..i];
    var j := ShiftGreater(a, i, key(x), key);
    a[j] := x;
    InsertAt(sorted, x, key, j);
    Spliced(a[..], sorted, x, i, j);
  }

  /** The loop of `InsertStep`: the elements of `a[..i]` whose key is greater
      than `kx` move one place right, and `j` is the gap they leave. */
  method ShiftGreater<T>(a: array<T>, i: nat, kx: Key, key: T -> Key) returns (j: nat)
    requires i < a.Length
    modifies a
    ensures j <= i
    ensures forall k :: 0 <= k < j ==> a[k] == old(a[k])
    ensures forall k :: j < k <= i ==> a[k] == old(a[k - 1])
    ensures forall k :: j <= k < i ==> !KeyLe(key(old(a[k])), kx)
    ensures j == 0 || KeyLe(key(old(a[j - 1])), kx)
    ensures forall k :: i < k < a.Length ==> a[k] == old(a[k])
  {
    ghost var b := a[..];
    j := i;
    while j > 0 && !KeyLe(key(a[j - 1]), kx)
      invariant 0 <= j <= i
      invariant forall k :: 0 <= k < j ==> a[k] == b[k]
      invariant forall k :: j < k <= i ==> a[k] == b[k - 1]
      invariant forall k :: j <= k < i ==> !KeyLe(key(b[k]), kx)
      invariant forall k :: i < k < a.Length ==> a[k] == b[k]
    {
      a[j] := a[j - 1];
      j := j - 1;
    }
  }

  /** The array after the shift: `sorted` with `x` written at `j`. */
  lemma Spliced<T>(b: seq<T>, sorted: seq<T>, x: T, i: nat, j: nat)
    requires j <= i < |b| && |sorted| == i
    requires forall k :: 0 <= k < j ==> b[k] == sorted[k]
    requires b[j] == x
    requires forall k :: j < k <= i ==> b[k] == sorted[k - 1]
    ensures b[..i + 1] == sorted[..j] + [x] + sorted[j..]
  {
    var r := sorted[..j] + [x] + sorted[j..];
    assert |r| == i + 1;
    forall k | 0 <= k <= i ensures b[k] == r[k] {
      if k < j { } else if k == j { } else { assert r[k] == sorted[j..][k - j - 1]; }
    }
  }

  /** `a.sort(...)`: the array is rearranged in place into its stable sort. */
  method SortInPlace<T>(a: array<T>, key: T -> Key)
    modifies a
    ensures a[..] == SortBy(old(a[..]), key)
  {
    ghost var input := a[..];
    var i := 0;
    while i < a.Length
      invariant 0 <= i <= a.Length
      invariant a[..i] == SortBy(input[..i], key)
      invariant forall k :: i <= k < a.Length ==> a[k] == input[k]
    {
      InsertStep(a, i, key);
      SortByPrefix(input, i, key);
      i := i + 1;
    }
    assert input[..a.Length] == input;
  }
}
