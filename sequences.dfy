/** Generic facts about the array operations the source relies on: `filter`,
    `findIndex`, a sort on a numeric key, and keep-the-first-occurrence de-duplication. */
module Sequences {

  /** `r` can be obtained from `s` by deleting elements, without reordering. */
  predicate IsSubsequence<T(==)>(r: seq<T>, s: seq<T>)
    decreases |s|
  {
    if r == [] then true
    else if s == [] then false
    else (r[0] == s[0] && IsSubsequence(r[1..], s[1..])) || IsSubsequence(r, s[1..])
  }

  /** JavaScript's `Array.prototype.filter`: the elements satisfying `p`, in order. */
  function Filter<T>(s: seq<T>, p: T -> bool): (r: seq<T>)
    ensures |r| <= |s|
    ensures forall i :: 0 <= i < |r| ==> r[i] in s && p(r[i])
    ensures forall j :: 0 <= j < |s| && p(s[j]) ==> s[j] in r
  {
    if s == [] then []
    else (if p(s[0]) then [s[0]] else []) + Filter(s[1..], p)
  }

  lemma {:induction false} FilterIsSubsequence<T>(s: seq<T>, p: T -> bool)
    ensures IsSubsequence(Filter(s, p), s)
    decreases |s|
  {
    if s != [] {
      FilterIsSubsequence(s[1..], p);
      var rest := Filter(s[1..], p);
      if p(s[0]) {
        assert Filter(s, p) == [s[0]] + rest;
        assert ([s[0]] + rest)[1..] == rest;
      } else {
        assert Filter(s, p) == rest;
      }
    }
  }

  /** Filtering keeps every copy of a kept element and no copy of a dropped one. */
  lemma {:induction false} FilterCount<T>(s: seq<T>, p: T -> bool, x: T)
    ensures multiset(Filter(s, p))[x] == if p(x) then multiset(s)[x] else 0
    decreases |s|
  {
    if s != [] {
      FilterCount(s[1..], p, x);
      assert s == [s[0]] + s[1..];
    }
  }

  lemma {:induction false} FilterConcat<T>(a: seq<T>, b: seq<T>, p: T -> bool)
    ensures Filter(a + b, p) == Filter(a, p) + Filter(b, p)
    decreases |a|
  {
    if a == [] {
      assert a + b == b;
    } else {
      FilterConcat(a[1..], b, p);
      var head := if p(a[0]) then [a[0]] else [];
      assert (a + b)[0] == a[0];
      assert (a + b)[1..] == a[1..] + b;
      calc {
        Filter(a + b, p);
        head + Filter(a[1..] + b, p);
        head + (Filter(a[1..], p) + Filter(b, p));
        (head + Filter(a[1..], p)) + Filter(b, p);
      }
    }
  }

  /** Filters with predicates that agree on every element of `s` give the same result. */
  lemma {:induction false} FilterCongruent<T>(s: seq<T>, p: T -> bool, q: T -> bool)
    requires forall i :: 0 <= i < |s| ==> p(s[i]) == q(s[i])
    ensures Filter(s, p) == Filter(s, q)
    decreases |s|
  {
    if s != [] {
      FilterCongruent(s[1..], p, q);
    }
  }

  /** Filtering out the one element `p` rejects removes exactly that position. */
  lemma {:induction false} FilterDropsOne<T>(s: seq<T>, p: T -> bool, k: nat)
    requires k < |s| && !p(s[k])
    requires forall i :: 0 <= i < |s| && i != k ==> p(s[i])
    ensures s[..k] + s[k + 1..] == Filter(s, p)
    decreases |s|
  {
    var tail := s[1..];
    if k == 0 {
      assert s[..0] + s[1..] == tail;
      FilterKeepsAll(tail, p);
    } else {
      FilterDropsOne(tail, p, k - 1);
      assert s[..k] == [s[0]] + tail[..k - 1];
      assert s[k + 1..] == tail[k..];
    }
  }

  lemma {:induction false} FilterKeepsAll<T>(s: seq<T>, p: T -> bool)
    requires forall i :: 0 <= i < |s| ==> p(s[i])
    ensures Filter(s, p) == s
    decreases |s|
  {
    if s != [] {
      FilterKeepsAll(s[1..], p);
    }
  }

  /** Two filters with disjoint predicates together keep at most every element once. */
  lemma {:induction false} DisjointFiltersFit<T>(s: seq<T>, p: T -> bool, q: T -> bool)
    requires forall x :: !(p(x) && q(x))
    ensures |Filter(s, p)| + |Filter(s, q)| <= |s|
    decreases |s|
  {
    if s != [] {
      DisjointFiltersFit(s[1..], p, q);
    }
  }

  /** The keys of `s` never increase from left to right. */
  predicate SortedDesc<T>(s: seq<T>, key: T -> int)
  {
    forall i, j :: 0 <= i < j < |s| ==> key(s[i]) >= key(s[j])
  }

  /** Puts `x` in front of the first element whose key is not larger than its own. */
  function Insert<T>(x: T, s: seq<T>, key: T -> int): (r: seq<T>)
    ensures |r| == |s| + 1
    ensures r[0] == x || (s != [] && r[0] == s[0])
    ensures multiset(r) == multiset(s) + multiset{x}
  {
    if s == [] then [x]
    else if key(x) >= key(s[0]) then [x] + s
    else
      assert s == [s[0]] + s[1..];
      [s[0]] + Insert(x, s[1..], key)
  }

  /** Putting an element no smaller than the head in front keeps the order. */
  lemma PrependSorted<T>(x: T, s: seq<T>, key: T -> int)
    requires SortedDesc(s, key)
    requires s == [] || key(x) >= key(s[0])
    ensures SortedDesc([x] + s, key)
  {
    var r := [x] + s;
    forall i, j | 0 <= i < j < |r|
      ensures key(r[i]) >= key(r[j])
    {
      assert r[j] == s[j - 1];
      if i > 0 {
        assert r[i] == s[i - 1];
      } else if j > 1 {
        assert key(s[0]) >= key(s[j - 1]);
      }
    }
  }

  lemma TailSorted<T>(s: seq<T>, key: T -> int)
    requires s != [] && SortedDesc(s, key)
    ensures SortedDesc(s[1..], key)
  {
    forall i, j | 0 <= i < j < |s[1..]|
      ensures key(s[1..][i]) >= key(s[1..][j])
    {
      assert s[1..][i] == s[i + 1] && s[1..][j] == s[j + 1];
    }
  }

  lemma {:induction false} InsertSorted<T>(x: T, s: seq<T>, key: T -> int)
    requires SortedDesc(s, key)
    ensures SortedDesc(Insert(x, s, key), key)
    decreases |s|
  {
    if s == [] {
      PrependSorted(x, s, key);
      assert Insert(x, s, key) == [x] + s;
    } else if key(x) >= key(s[0]) {
      PrependSorted(x, s, key);
    } else {
      var rest := Insert(x, s[1..], key);
      TailSorted(s, key);
      InsertSorted(x, s[1..], key);
      assert key(s[0]) >= key(rest[0]) by {
        if rest[0] != x {
          assert rest[0] == s[1];
        }
      }
      PrependSorted(s[0], rest, key);
    }
  }

  /** A sort with `{ key: -1 }`: newest (largest key) first. */
  function SortDesc<T>(s: seq<T>, key: T -> int): (r: seq<T>)
    ensures multiset(r) == multiset(s)
    ensures SortedDesc(r, key)
  {
    if s == [] then []
    else
      assert s == [s[0]] + s[1..];
      InsertSorted(s[0], SortDesc(s[1..], key), key);
      Insert(s[0], SortDesc(s[1..], key), key)
  }

  /** `findIndex(c => key(c) === k)`, with |s| standing for JavaScript's -1. */
  function IndexOfKey<T, K(==)>(s: seq<T>, key: T -> K, k: K): (i: nat)
    ensures i <= |s|
    ensures i < |s| ==> key(s[i]) == k
    ensures forall j :: 0 <= j < i ==> key(s[j]) != k
  {
    if s == [] then 0
    else if key(s[0]) == k then 0
    else 1 + IndexOfKey(s[1..], key, k)
  }

  /** Appending an element leaves an earlier match where it was. */
  lemma {:induction false} IndexOfKeyAppend<T, K>(s: seq<T>, x: T, key: T -> K, k: K)
    ensures IndexOfKey(s + [x], key, k) ==
      if IndexOfKey(s, key, k) < |s| then IndexOfKey(s, key, k)
      else if key(x) == k then |s| else |s| + 1
    decreases |s|
  {
    if s == [] {
      assert s + [x] == [x];
      assert [x][1..] == [];
    } else {
      assert (s + [x])[1..] == s[1..] + [x];
      IndexOfKeyAppend(s[1..], x, key, k);
    }
  }

  /** `s.filter((x, index, self) => index === self.findIndex(c => key(c) === key(x)))`,
      applied from position `i` on. */
  function DedupFirstFrom<T, K(==)>(s: seq<T>, key: T -> K, i: nat): (r: seq<T>)
    decreases |s| - i
  {
    if i >= |s| then []
    else (if IndexOfKey(s, key, key(s[i])) == i then [s[i]] else []) + DedupFirstFrom(s, key, i + 1)
  }

  /** Keep-the-first-occurrence de-duplication of `s` by `key`. */
  function DedupFirst<T, K(==)>(s: seq<T>, key: T -> K): (r: seq<T>)
  {
    DedupFirstFrom(s, key, 0)
  }

  /** What the de-duplication promises: order is kept, every kept element is the first of its
      key, no two kept elements share a key, the first element of every key that occurs in `s`
      is kept, and the kept elements are ordered by where their keys first occur. */
  lemma {:induction false} DedupFirstSpec<T, K>(s: seq<T>, key: T -> K)
    ensures IsSubsequence(DedupFirst(s, key), s)
    ensures forall k :: 0 <= k < |DedupFirst(s, key)| ==>
      IndexOfKey(s, key, key(DedupFirst(s, key)[k])) < |s| &&
      s[IndexOfKey(s, key, key(DedupFirst(s, key)[k]))] == DedupFirst(s, key)[k]
    ensures forall a, b :: 0 <= a < b < |DedupFirst(s, key)| ==> key(DedupFirst(s, key)[a]) != key(DedupFirst(s, key)[b])
    ensures forall j :: 0 <= j < |s| ==> s[IndexOfKey(s, key, key(s[j]))] in DedupFirst(s, key)
    ensures forall a, b :: 0 <= a < b < |DedupFirst(s, key)| ==>
      IndexOfKey(s, key, key(DedupFirst(s, key)[a])) < IndexOfKey(s, key, key(DedupFirst(s, key)[b]))
  {
    var r := DedupFirst(s, key);
    DedupFromIsSubsequence(s, key, 0);
    forall k | 0 <= k < |r|
      ensures IndexOfKey(s, key, key(r[k])) < |s| && s[IndexOfKey(s, key, key(r[k]))] == r[k]
    {
      DedupFromKept(s, key, 0, k);
    }
    forall a, b | 0 <= a < b < |r|
      ensures IndexOfKey(s, key, key(r[a])) < IndexOfKey(s, key, key(r[b]))
    {
      DedupFromOrdered(s, key, 0, a, b);
    }
    forall j | 0 <= j < |s|
      ensures s[IndexOfKey(s, key, key(s[j]))] in r
    {
      var f := IndexOfKey(s, key, key(s[j]));
      assert IndexOfKey(s, key, key(s[f])) == f;
      DedupFromComplete(s, key, 0, f);
    }
  }

  /** Every kept element is the first of its key at or after `i`. */
  lemma {:induction false} DedupFromKept<T, K>(s: seq<T>, key: T -> K, i: nat, k: nat)
    requires k < |DedupFirstFrom(s, key, i)|
    ensures var x := DedupFirstFrom(s, key, i)[k];
      i <= IndexOfKey(s, key, key(x)) < |s| && s[IndexOfKey(s, key, key(x))] == x
    decreases |s| - i
  {
    var r := DedupFirstFrom(s, key, i);
    var rest := DedupFirstFrom(s, key, i + 1);
    if IndexOfKey(s, key, key(s[i])) == i {
      assert r == [s[i]] + rest;
      if k > 0 {
        assert r[k] == rest[k - 1];
        DedupFromKept(s, key, i + 1, k - 1);
      }
    } else {
      assert r == rest;
      DedupFromKept(s, key, i + 1, k);
    }
  }

  /** Of two kept elements, the earlier one's key first occurs earlier. */
  lemma {:induction false} DedupFromOrdered<T, K>(s: seq<T>, key: T -> K, i: nat, a: nat, b: nat)
    requires a < b < |DedupFirstFrom(s, key, i)|
    ensures IndexOfKey(s, key, key(DedupFirstFrom(s, key, i)[a])) < IndexOfKey(s, key, key(DedupFirstFrom(s, key, i)[b]))
    decreases |s| - i, 1
  {
    if IndexOfKey(s, key, key(s[i])) != i {
      DedupFromOrderedSkip(s, key, i, a, b);
    } else if a == 0 {
      DedupFromHeadFirst(s, key, i, b);
    } else {
      DedupFromOrderedKeep(s, key, i, a, b);
    }
  }

  lemma {:induction false} DedupFromOrderedSkip<T, K>(s: seq<T>, key: T -> K, i: nat, a: nat, b: nat)
    requires i < |s| && IndexOfKey(s, key, key(s[i])) != i
    requires a < b < |DedupFirstFrom(s, key, i)|
    ensures IndexOfKey(s, key, key(DedupFirstFrom(s, key, i)[a])) < IndexOfKey(s, key, key(DedupFirstFrom(s, key, i)[b]))
    decreases |s| - i, 0
  {
    var r := DedupFirstFrom(s, key, i);
    var rest := DedupFirstFrom(s, key, i + 1);
    assert r == [] + rest;
    assert r[a] == rest[a] && r[b] == rest[b];
    DedupFromOrdered(s, key, i + 1, a, b);
  }

  lemma {:induction false} DedupFromOrderedKeep<T, K>(s: seq<T>, key: T -> K, i: nat, a: nat, b: nat)
    requires i < |s| && IndexOfKey(s, key, key(s[i])) == i
    requires 0 < a < b < |DedupFirstFrom(s, key, i)|
    ensures IndexOfKey(s, key, key(DedupFirstFrom(s, key, i)[a])) < IndexOfKey(s, key, key(DedupFirstFrom(s, key, i)[b]))
    decreases |s| - i, 0
  {
    var r := DedupFirstFrom(s, key, i);
    var rest := DedupFirstFrom(s, key, i + 1);
    assert r[a] == rest[a - 1] && r[b] == rest[b - 1];
    DedupFromOrdered(s, key, i + 1, a - 1, b - 1);
  }

  /** When `s[i]` is kept it comes first, and every later kept key first occurs after `i`. */
  lemma DedupFromHeadFirst<T, K>(s: seq<T>, key: T -> K, i: nat, b: nat)
    requires i < |s| && IndexOfKey(s, key, key(s[i])) == i
    requires 0 < b < |DedupFirstFrom(s, key, i)|
    ensures DedupFirstFrom(s, key, i)[0] == s[i]
    ensures i < IndexOfKey(s, key, key(DedupFirstFrom(s, key, i)[b]))
  {
    var rest := DedupFirstFrom(s, key, i + 1);
    assert DedupFirstFrom(s, key, i)[b] == rest[b - 1];
    DedupFromKept(s, key, i + 1, b - 1);
  }

  /** An element that is the first of its key, at or after `i`, is kept. */
  lemma {:induction false} DedupFromComplete<T, K>(s: seq<T>, key: T -> K, i: nat, j: nat)
    requires i <= j < |s| && IndexOfKey(s, key, key(s[j])) == j
    ensures s[j] in DedupFirstFrom(s, key, i)
    decreases |s| - i
  {
    var rest := DedupFirstFrom(s, key, i + 1);
    if j == i {
      assert DedupFirstFrom(s, key, i) == [s[i]] + rest;
    } else {
      DedupFromComplete(s, key, i + 1, j);
      if IndexOfKey(s, key, key(s[i])) == i {
        assert DedupFirstFrom(s, key, i) == [s[i]] + rest;
      } else {
        assert DedupFirstFrom(s, key, i) == rest;
      }
    }
  }

  lemma {:induction false} DedupFromIsSubsequence<T, K>(s: seq<T>, key: T -> K, i: nat)
    requires i <= |s|
    ensures IsSubsequence(DedupFirstFrom(s, key, i), s[i..])
    decreases |s| - i
  {
    if i < |s| {
      DedupFromIsSubsequence(s, key, i + 1);
      var rest := DedupFirstFrom(s, key, i + 1);
      assert s[i..][1..] == s[i + 1..];
      if IndexOfKey(s, key, key(s[i])) == i {
        assert DedupFirstFrom(s, key, i) == [s[i]] + rest;
        assert ([s[i]] + rest)[1..] == rest;
      } else {
        assert DedupFirstFrom(s, key, i) == rest;
      }
    }
  }
}
