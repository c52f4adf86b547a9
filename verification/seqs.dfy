/**
 Generic sequence operations that the pandas and numpy idioms of the
 modelled code reduce to: boolean-mask filtering, reversal and
 "drop duplicates, keep first".
 */
module Seqs {
  import opened Results

  /** Keeps the elements satisfying `p`, in their original order
      (a boolean-mask selection `s[mask]`). */
  function Filter<T(!new)>(s: seq<T>, p: T -> bool): (r: seq<T>)
    ensures |r| <= |s|
    ensures forall x :: x in r <==> x in s && p(x)
  {
    if |s| == 0 then []
    else
      (if p(s[0]) then [s[0]] else []) + Filter(s[1..], p)
  }

  /** Filtering distributes over concatenation: elements of an earlier part
      stay ahead of elements of a later part, which is what "the selection
      preserves row order" means. */
  lemma {:induction false} FilterConcat<T(!new)>(a: seq<T>, b: seq<T>, p: T -> bool)
    ensures Filter(a + b, p) == Filter(a, p) + Filter(b, p)
  {
    if |a| == 0 {
      assert a + b == b;
    } else {
      assert (a + b)[1..] == a[1..] + b;
      FilterConcat(a[1..], b, p);
    }
  }

  /** Filtering keeps every occurrence of a passing element and drops every
      occurrence of the others. */
  lemma {:induction false} FilterCount<T(!new)>(s: seq<T>, p: T -> bool)
    ensures forall x :: multiset(Filter(s, p))[x] == if p(x) then multiset(s)[x] else 0
  {
    if |s| > 0 {
      FilterCount(s[1..], p);
      assert s == [s[0]] + s[1..];
    }
  }

  /** The position of the first element satisfying `p`, if any: a loop
      that breaks on the first success. */
  function FirstWhere<T>(s: seq<T>, p: T -> bool): (r: Option<nat>)
    ensures r.Some? ==> r.value < |s| && p(s[r.value])
    ensures r.Some? ==> forall j :: 0 <= j < r.value ==> !p(s[j])
    ensures r.None? <==> forall j :: 0 <= j < |s| ==> !p(s[j])
  {
    if |s| == 0 then None
    else if p(s[0]) then Some(0)
    else
      match FirstWhere(s[1..], p)
      case None => None
      case Some(i) => Some(i + 1)
  }

  /** Searching a sequence extended at the end finds the same position as
      before, or else the new last element when it satisfies `p`. */
  lemma {:induction false} FirstWhereSnoc<T>(s: seq<T>, x: T, p: T -> bool)
    ensures FirstWhere(s + [x], p) ==
      match FirstWhere(s, p)
      case Some(i) => Some(i)
      case None => if p(x) then Some(|s|) else None
  {
    if |s| == 0 {
      assert s + [x] == [x];
    } else {
      assert (s + [x])[0] == s[0];
      assert (s + [x])[1..] == s[1..] + [x];
      FirstWhereSnoc(s[1..], x, p);
    }
  }

  /** Reversal of a sequence (the one-axis case of `np.flip`). */
  function Reverse<T>(s: seq<T>): (r: seq<T>)
    ensures |r| == |s|
    ensures forall i :: 0 <= i < |s| ==> r[i] == s[|s| - 1 - i]
  {
    if |s| == 0 then [] else Reverse(s[1..]) + [s[0]]
  }

  /** Some element of `s` carries the key `k`. */
  predicate HasKey<T, K(==)>(s: seq<T>, key: T -> K, k: K)
  {
    exists i :: 0 <= i < |s| && key(s[i]) == k
  }

  /** No two elements share a key. */
  predicate DistinctKeys<T, K(==)>(s: seq<T>, key: T -> K)
  {
    forall i, j :: 0 <= i < j < |s| ==> key(s[i]) != key(s[j])
  }

  /** `x` occurs in `s` with no element of the same key before it: it is
      the first occurrence of its key. */
  predicate FirstOfKey<T(==), K(==)>(s: seq<T>, key: T -> K, x: T)
  {
    exists i :: 0 <= i < |s| && s[i] == x && forall j :: 0 <= j < i ==> key(s[j]) != key(x)
  }

  /** `drop_duplicates(subset=key, keep='first')`: keeps an element only when
      no earlier element carries the same key. Defined from the right so that
      every step appends at most one element. */
  function KeepFirst<T, K(==)>(s: seq<T>, key: T -> K): seq<T>
    decreases |s|
  {
    if |s| == 0 then []
    else
      var init := s[..|s| - 1];
      KeepFirst(init, key) + (if HasKey(init, key, key(s[|s| - 1])) then [] else [s[|s| - 1]])
  }

  /** Every kept element is an element of the input and the first one
      carrying its key. */
  lemma {:induction false} KeepFirstFirst<T, K>(s: seq<T>, key: T -> K)
    ensures forall x :: x in KeepFirst(s, key) ==> FirstOfKey(s, key, x)
  {
    if |s| > 0 {
      var init := s[..|s| - 1];
      var last := s[|s| - 1];
      assert s == init + [last];
      KeepFirstFirst(init, key);
      var d := KeepFirst(init, key);
      forall x | x in KeepFirst(s, key)
        ensures FirstOfKey(s, key, x)
      {
        if x in d {
          KeepFirstOld(s, key, x);
        } else {
          KeepFirstNew(s, key);
        }
      }
    }
  }

  lemma KeepFirstOld<T, K>(s: seq<T>, key: T -> K, x: T)
    requires |s| > 0
    requires FirstOfKey(s[..|s| - 1], key, x)
    ensures FirstOfKey(s, key, x)
  {
    var init := s[..|s| - 1];
    var i :| 0 <= i < |init| && init[i] == x && forall j :: 0 <= j < i ==> key(init[j]) != key(x);
    assert forall j :: 0 <= j < i ==> s[j] == init[j];
  }

  lemma KeepFirstNew<T, K>(s: seq<T>, key: T -> K)
    requires |s| > 0
    requires !HasKey(s[..|s| - 1], key, key(s[|s| - 1]))
    ensures FirstOfKey(s, key, s[|s| - 1])
  {
    var init := s[..|s| - 1];
    assert forall j :: 0 <= j < |s| - 1 ==> s[j] == init[j];
  }

  /** The kept elements carry pairwise distinct keys. */
  lemma {:induction false} KeepFirstDistinct<T, K>(s: seq<T>, key: T -> K)
    ensures DistinctKeys(KeepFirst(s, key), key)
  {
    if |s| > 0 {
      var init := s[..|s| - 1];
      var last := s[|s| - 1];
      KeepFirstDistinct(init, key);
      KeepFirstKeys(init, key);
      var d := KeepFirst(init, key);
      var r := KeepFirst(s, key);
      if !HasKey(init, key, key(last)) {
        forall i, j | 0 <= i < j < |r|
          ensures key(r[i]) != key(r[j])
        {
          if j == |r| - 1 {
            assert r[i] == d[i];
          } else {
            assert r[i] == d[i] && r[j] == d[j];
          }
        }
      }
    }
  }

  /** Keeping first occurrences loses no key and invents none. */
  lemma {:induction false} KeepFirstKeys<T, K>(s: seq<T>, key: T -> K)
    ensures forall k :: HasKey(KeepFirst(s, key), key, k) <==> HasKey(s, key, k)
    ensures |KeepFirst(s, key)| <= |s|
  {
    if |s| > 0 {
      var init := s[..|s| - 1];
      var last := s[|s| - 1];
      KeepFirstKeys(init, key);
      var d := KeepFirst(init, key);
      var r := KeepFirst(s, key);
      forall k
        ensures HasKey(r, key, k) <==> HasKey(s, key, k)
      {
        if HasKey(s, key, k) {
          var i :| 0 <= i < |s| && key(s[i]) == k;
          if i < |s| - 1 {
            assert init[i] == s[i];
            assert HasKey(init, key, k);
            var i' :| 0 <= i' < |d| && key(d[i']) == k;
            assert r[i'] == d[i'];
          } else if HasKey(init, key, k) {
            var i' :| 0 <= i' < |d| && key(d[i']) == k;
            assert r[i'] == d[i'];
          } else {
            assert r[|r| - 1] == last;
          }
        }
        if HasKey(r, key, k) {
          var i :| 0 <= i < |r| && key(r[i]) == k;
          if i < |d| {
            assert r[i] == d[i];
            assert HasKey(d, key, k);
            var i' :| 0 <= i' < |init| && key(init[i']) == k;
            assert s[i'] == init[i'];
          } else {
            assert r[i] == last;
          }
        }
      }
    }
  }
}
