/**
 * Sequence operations the pages use through `Array.prototype` methods:
 * `filter`, `find`, `reverse`, `slice(0, n)`, and the de-duplication done by
 * `Array.from(new Set(...))`, together with what they are known to keep.
 */
module Seqs {
  import opened Wrappers

  /** `s.filter(p)`: the elements satisfying `p`, in their original order. */
  function Filter<T>(s: seq<T>, p: T -> bool): (r: seq<T>)
    ensures |r| <= |s|
    ensures forall i :: 0 <= i < |r| ==> r[i] in s && p(r[i])
    ensures forall i :: 0 <= i < |s| && p(s[i]) ==> s[i] in r
  {
    if s == [] then [] else (if p(s[0]) then [s[0]] else []) + Filter(s[1..], p)
  }

  /** `a` is `b` with some elements left out, the rest in their order. */
  predicate SubseqOf<T(==)>(a: seq<T>, b: seq<T>)
    decreases |b|
  {
    if a == [] then true
    else if b == [] then false
    else if a[0] == b[0] then SubseqOf(a[1..], b[1..])
    else SubseqOf(a, b[1..])
  }

  lemma {:induction false} SubseqOfSkip<T>(a: seq<T>, b: seq<T>, y: T)
    requires SubseqOf(a, b)
    ensures SubseqOf(a, [y] + b)
    decreases |b|, 1
  {
    if a != [] && a[0] == y {
      if a[0] == b[0] {
        SubseqOfSkip(a[1..], b[1..], b[0]);
        assert [b[0]] + b[1..] == b;
      } else {
        SubseqOfTail(a, b);
        assert ([y] + b)[1..] == b;
      }
    } else if a != [] {
      assert ([y] + b)[1..] == b;
    }
  }

  lemma {:induction false} SubseqOfTail<T>(a: seq<T>, b: seq<T>)
    requires a != [] && SubseqOf(a, b)
    ensures SubseqOf(a[1..], b)
    decreases |b|, 0
  {
    if a[0] == b[0] {
      SubseqOfSkip(a[1..], b[1..], b[0]);
      assert [b[0]] + b[1..] == b;
    } else {
      SubseqOfTail(a, b[1..]);
      SubseqOfSkip(a[1..], b[1..], b[0]);
      assert [b[0]] + b[1..] == b;
    }
  }

  /** Every sequence is a subsequence of itself. */
  lemma {:induction false} SubseqOfSelf<T>(s: seq<T>)
    ensures SubseqOf(s, s)
  {
    if s != [] {
      SubseqOfSelf(s[1..]);
    }
  }

  /** Filtering keeps the order: its result is a subsequence of its input. */
  lemma {:induction false} FilterSubseq<T>(s: seq<T>, p: T -> bool)
    ensures SubseqOf(Filter(s, p), s)
  {
    if s != [] {
      FilterSubseq(s[1..], p);
      var r := Filter(s, p);
      if p(s[0]) {
        assert r[0] == s[0] && r[1..] == Filter(s[1..], p);
      } else {
        assert r == Filter(s[1..], p);
        SubseqOfSkip(r, s[1..], s[0]);
        assert [s[0]] + s[1..] == s;
      }
    }
  }

  /** Filtering distributes over concatenation. */
  lemma {:induction false} FilterAppend<T>(a: seq<T>, b: seq<T>, p: T -> bool)
    ensures Filter(a + b, p) == Filter(a, p) + Filter(b, p)
  {
    if a != [] {
      assert (a + b)[1..] == a[1..] + b;
      FilterAppend(a[1..], b, p);
    } else {
      assert a + b == b;
    }
  }

  /** `Filter` of a sequence grown by one element. */
  lemma {:induction false} FilterSnoc<T>(xs: seq<T>, x: T, p: T -> bool)
    ensures Filter(xs + [x], p) == Filter(xs, p) + (if p(x) then [x] else [])
  {
    FilterAppend(xs, [x], p);
    assert [x][1..] == [];
  }

  /** The elements whose key is `k`. */
  function InGroup<T>(key: T -> string, k: string): T -> bool {
    (x: T) => key(x) == k
  }

  /** The groups after one more element. */
  lemma {:induction false} GroupsStep<T>(xs: seq<T>, key: T -> string, i: nat, groups: map<string, seq<T>>, group: seq<T>)
    requires i < |xs|
    requires forall z :: z in groups ==> groups[z] == Filter(xs[..i], InGroup(key, z))
    requires group == Filter(xs[..i], InGroup(key, key(xs[i])))
    ensures forall z :: z in groups[key(xs[i]) := group + [xs[i]]] ==>
              groups[key(xs[i]) := group + [xs[i]]][z] == Filter(xs[..i + 1], InGroup(key, z))
  {
    var g := groups[key(xs[i]) := group + [xs[i]]];
    assert xs[..i + 1] == xs[..i] + [xs[i]];
    forall z | z in g
      ensures g[z] == Filter(xs[..i + 1], InGroup(key, z))
    {
      FilterSnoc(xs[..i], xs[i], InGroup(key, z));
    }
  }

  /** Filtering keeps nothing when no element passes. */
  lemma {:induction false} FilterNoneOf<T>(s: seq<T>, p: T -> bool)
    requires forall i :: 0 <= i < |s| ==> !p(s[i])
    ensures Filter(s, p) == []
  {
    if s != [] {
      assert forall i :: 0 <= i < |s[1..]| ==> s[1..][i] == s[i + 1];
      FilterNoneOf(s[1..], p);
    }
  }

  /** Index of the first element satisfying `p`. */
  function FindIndex<T>(s: seq<T>, p: T -> bool): (r: Option<nat>)
    ensures r.Some? ==> r.value < |s| && p(s[r.value]) && forall j :: 0 <= j < r.value ==> !p(s[j])
    ensures r.None? ==> forall j :: 0 <= j < |s| ==> !p(s[j])
  {
    if s == [] then None
    else if p(s[0]) then Some(0)
    else match FindIndex(s[1..], p)
      case None => None
      case Some(k) => Some(k + 1)
  }

  /** `s.find(p)`: the first element satisfying `p`, or `undefined`. */
  function Find<T>(s: seq<T>, p: T -> bool): (r: Option<T>)
    ensures r.Some? ==> exists i :: 0 <= i < |s| && s[i] == r.value && p(s[i])
                                    && forall j :: 0 <= j < i ==> !p(s[j])
    ensures r.None? <==> forall j :: 0 <= j < |s| ==> !p(s[j])
  {
    match FindIndex(s, p)
    case Some(i) => Some(s[i])
    case None => None
  }

  /** A test that compares a key with `k` finds the first element with that
      key. */
  lemma FindByKey<T, K>(s: seq<T>, key: T -> K, k: K, p: T -> bool)
    requires forall x :: p(x) == (key(x) == k)
    ensures Find(s, p).Some? ==> exists i :: 0 <= i < |s| && s[i] == Find(s, p).value && key(s[i]) == k
                                            && forall j :: 0 <= j < i ==> key(s[j]) != k
    ensures Find(s, p).None? <==> forall j :: 0 <= j < |s| ==> key(s[j]) != k
  {
  }

  /** Two tests that agree on every element find the same element. */
  lemma {:induction false} FindSame<T>(s: seq<T>, p: T -> bool, q: T -> bool)
    requires forall i :: 0 <= i < |s| ==> p(s[i]) == q(s[i])
    ensures Find(s, p) == Find(s, q)
  {
    FindIndexSame(s, p, q);
  }

  lemma {:induction false} FindIndexSame<T>(s: seq<T>, p: T -> bool, q: T -> bool)
    requires forall i :: 0 <= i < |s| ==> p(s[i]) == q(s[i])
    ensures FindIndex(s, p) == FindIndex(s, q)
  {
    if s != [] {
      assert forall i :: 0 <= i < |s[1..]| ==> s[1..][i] == s[i + 1];
      FindIndexSame(s[1..], p, q);
    }
  }

  /** When the first element passes the test, `find` returns it. */
  lemma FindHead<T>(s: seq<T>, p: T -> bool)
    requires |s| > 0 && p(s[0])
    ensures Find(s, p) == Some(s[0])
  {
  }

  /** When only the second of two elements passes the test, `find`
      returns it. */
  lemma FindSecond<T>(a: T, b: T, p: T -> bool)
    requires !p(a) && p(b)
    ensures Find([a, b], p) == Some(b)
  {
    var s := [a, b];
    assert s[0] == a && s[1] == b;
    assert Find(s, p).Some?;
  }

  /** `s.reverse()`. */
  function Reverse<T>(s: seq<T>): (r: seq<T>)
    ensures |r| == |s|
    ensures forall i :: 0 <= i < |s| ==> r[i] == s[|s| - 1 - i]
  {
    if s == [] then [] else Reverse(s[1..]) + [s[0]]
  }

  predicate NoDuplicates<T(==)>(s: seq<T>) {
    forall i, j :: 0 <= i < j < |s| ==> s[i] != s[j]
  }

  /** `Array.from(new Set(s))`: each value once, at its first occurrence. */
  function Distinct<T(==)>(s: seq<T>): (r: seq<T>)
    ensures NoDuplicates(r)
    ensures forall i :: 0 <= i < |r| ==> r[i] in s
    ensures forall i :: 0 <= i < |s| ==> s[i] in r
  {
    if s == [] then []
    else
      var r := Distinct(s[..|s| - 1]);
      assert forall i :: 0 <= i < |s| - 1 ==> s[i] == s[..|s| - 1][i];
      if s[|s| - 1] in r then r else r + [s[|s| - 1]]
  }

  /** In a duplicate-free sequence every value occurs at most once. */
  lemma {:induction false} NoDuplicatesCount<T>(b: seq<T>, x: T)
    requires NoDuplicates(b)
    ensures multiset(b)[x] <= 1
  {
    if b != [] {
      assert b == [b[0]] + b[1..];
      assert NoDuplicates(b[1..]) by {
        forall i, j | 0 <= i < j < |b| - 1 ensures b[1..][i] != b[1..][j] {
          assert b[1..][i] == b[i + 1] && b[1..][j] == b[j + 1];
        }
      }
      NoDuplicatesCount(b[1..], x);
      if b[0] == x {
        assert x !in b[1..] by {
          forall k | 0 <= k < |b| - 1 ensures b[1..][k] != x {
            assert b[1..][k] == b[k + 1];
          }
        }
      }
    }
  }

  /** Being duplicate-free depends only on the multiset of elements. */
  lemma NoDuplicatesPermutation<T>(a: seq<T>, b: seq<T>)
    requires multiset(a) == multiset(b) && NoDuplicates(b)
    ensures NoDuplicates(a)
  {
    forall i, j | 0 <= i < j < |a| ensures a[i] != a[j] {
      if a[i] == a[j] {
        var x := a[i];
        assert a == a[..j] + a[j..];
        assert x in a[..j];
        assert x in a[j..];
        assert multiset(a)[x] == multiset(a[..j])[x] + multiset(a[j..])[x];
        NoDuplicatesCount(b, x);
      }
    }
  }

  /** `s.map(f)`. */
  function MapSeq<A, B>(s: seq<A>, f: A -> B): (r: seq<B>)
    ensures |r| == |s|
    ensures forall i :: 0 <= i < |s| ==> r[i] == f(s[i])
  {
    seq(|s|, i requires 0 <= i < |s| => f(s[i]))
  }

  lemma MapAppend<A, B>(a: seq<A>, b: seq<A>, f: A -> B)
    ensures MapSeq(a + b, f) == MapSeq(a, f) + MapSeq(b, f)
  {
  }
}
