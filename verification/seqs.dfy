/** Order-preserving selection from a sequence, the shape of a repository's
    `findByProductId` over a store kept in insertion order. */
module Seqs {

  /** The elements of `s` that satisfy `keep`, in their order in `s`. */
  function Filter<T>(s: seq<T>, keep: T -> bool): (r: seq<T>)
    ensures |r| <= |s|
    ensures forall i :: 0 <= i < |r| ==> r[i] in s && keep(r[i])
    ensures forall i :: 0 <= i < |s| && keep(s[i]) ==> s[i] in r
  {
    if |s| == 0 then []
    else (if keep(s[0]) then [s[0]] else []) + Filter(s[1..], keep)
  }

  /** The positions, from `i` on, of the elements of `s` that satisfy `keep`:
      strictly increasing, every satisfying position listed, and the element
      at the k-th position is the k-th element `Filter` selects. So `Filter`
      keeps exactly the satisfying elements, in the order they had in `s`. */
  function KeptFrom<T>(s: seq<T>, keep: T -> bool, i: nat): (idx: seq<nat>)
    requires i <= |s|
    ensures |idx| == |Filter(s[i..], keep)|
    ensures forall k :: 0 <= k < |idx| ==> i <= idx[k] < |s| && s[idx[k]] == Filter(s[i..], keep)[k]
    ensures forall k, l :: 0 <= k < l < |idx| ==> idx[k] < idx[l]
    ensures forall j :: i <= j < |s| && keep(s[j]) ==> j in idx
    decreases |s| - i
  {
    if i == |s| then []
    else
      var rest := KeptFrom(s, keep, i + 1);
      var later := Filter(s[i + 1..], keep);
      assert Filter(s[i..], keep) == (if keep(s[i]) then [s[i]] else []) + later by {
        assert s[i..][0] == s[i] && s[i..][1..] == s[i + 1..];
      }
      if keep(s[i]) then
        var idx := [i] + rest;
        assert forall k :: 0 < k < |idx| ==> idx[k] == rest[k - 1];
        idx
      else rest
  }

  /** The positions in `s` of the elements `Filter(s, keep)` selects. */
  function Kept<T>(s: seq<T>, keep: T -> bool): (idx: seq<nat>)
    ensures |idx| == |Filter(s, keep)|
    ensures forall k :: 0 <= k < |idx| ==> idx[k] < |s| && s[idx[k]] == Filter(s, keep)[k]
    ensures forall k, l :: 0 <= k < l < |idx| ==> idx[k] < idx[l]
    ensures forall j :: 0 <= j < |s| && keep(s[j]) ==> j in idx
  {
    assert s[0..] == s;
    KeptFrom(s, keep, 0)
  }

  /** Selecting from a concatenation selects from each part, in order. */
  lemma {:induction false} FilterConcat<T>(a: seq<T>, b: seq<T>, keep: T -> bool)
    ensures Filter(a + b, keep) == Filter(a, keep) + Filter(b, keep)
  {
    if |a| == 0 {
      assert a + b == b;
    } else {
      assert (a + b)[0] == a[0];
      assert (a + b)[1..] == a[1..] + b;
      FilterConcat(a[1..], b, keep);
    }
  }

  /** A selection that keeps everything is the identity. */
  lemma {:induction false} FilterAll<T>(s: seq<T>, keep: T -> bool)
    requires forall i :: 0 <= i < |s| ==> keep(s[i])
    ensures Filter(s, keep) == s
  {
    if |s| > 0 {
      FilterAll(s[1..], keep);
    }
  }

  /** A selection that keeps nothing is empty. */
  lemma {:induction false} FilterNone<T>(s: seq<T>, keep: T -> bool)
    requires forall i :: 0 <= i < |s| ==> !keep(s[i])
    ensures Filter(s, keep) == []
  {
    if |s| > 0 {
      FilterNone(s[1..], keep);
    }
  }

  /** Selecting by a narrower condition after a wider one is selecting by the
      narrower one alone; with equal conditions this is idempotence. */
  lemma {:induction false} FilterNarrower<T>(s: seq<T>, wide: T -> bool, narrow: T -> bool)
    requires forall x :: narrow(x) ==> wide(x)
    ensures Filter(Filter(s, wide), narrow) == Filter(s, narrow)
  {
    if |s| > 0 {
      FilterNarrower(s[1..], wide, narrow);
      var head := if wide(s[0]) then [s[0]] else [];
      FilterConcat(head, Filter(s[1..], wide), narrow);
      if wide(s[0]) {
        assert Filter(head, narrow) == (if narrow(s[0]) then [s[0]] else []) by {
          assert head[1..] == [];
        }
      }
    }
  }

  /** Selecting by a condition that excludes everything the first selection
      kept gives nothing. */
  lemma FilterDisjoint<T>(s: seq<T>, first: T -> bool, second: T -> bool)
    requires forall x :: second(x) ==> !first(x)
    ensures Filter(Filter(s, first), second) == []
  {
    var f := Filter(s, first);
    forall i | 0 <= i < |f| ensures !second(f[i]) {
      assert f[i] in f;
    }
    FilterNone(f, second);
  }

  /** No two elements of `s` share a key: the shape of a unique index. */
  predicate DistinctKeys<T, K(==)>(s: seq<T>, key: T -> K) {
    forall i, j :: 0 <= i < j < |s| ==> key(s[i]) != key(s[j])
  }

  /** Removing elements keeps the keys distinct. */
  lemma {:induction false} FilterDistinct<T, K>(s: seq<T>, keep: T -> bool, key: T -> K)
    requires DistinctKeys(s, key)
    ensures DistinctKeys(Filter(s, keep), key)
  {
    if |s| > 0 {
      var tail := s[1..];
      FilterDistinct(tail, keep, key);
      var ft := Filter(tail, keep);
      forall j | 0 <= j < |ft| ensures key(s[0]) != key(ft[j]) {
        assert ft[j] in tail;
        var k :| 0 <= k < |tail| && tail[k] == ft[j];
        assert s[k + 1] == ft[j];
      }
      var r := Filter(s, keep);
      if keep(s[0]) {
        assert r == [s[0]] + ft;
        forall i, j | 0 <= i < j < |r| ensures key(r[i]) != key(r[j]) {
          if i == 0 {
            assert r[j] == ft[j - 1];
          } else {
            assert r[i] == ft[i - 1] && r[j] == ft[j - 1];
          }
        }
      } else {
        assert r == ft;
      }
    }
  }

  /** Appending an element whose key is new keeps the keys distinct. */
  lemma AppendDistinct<T, K>(s: seq<T>, x: T, key: T -> K)
    requires DistinctKeys(s, key)
    requires forall i :: 0 <= i < |s| ==> key(s[i]) != key(x)
    ensures DistinctKeys(s + [x], key)
  {
  }
}
