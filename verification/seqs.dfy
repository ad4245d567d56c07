/** Sequence utilities used by the grouping steps of the pipeline: the code-point order
    on strings that Python uses to compare `str`, strict total orders, first-appearance
    de-duplication (as `Series.unique()` returns) and sorted key lists (as `groupby`
    returns its group keys). */
module Seqs {

  /** Strict lexicographic order on strings, character by character by code point;
      a proper prefix is smaller. */
  predicate StrLt(a: string, b: string)
    decreases |a|
  {
    |b| > 0 && (|a| == 0 || a[0] < b[0] || (a[0] == b[0] && StrLt(a[1..], b[1..])))
  }

  predicate IntLt(a: int, b: int) {
    a < b
  }

  ghost predicate StrictTotal<K(!new)>(lt: (K, K) -> bool) {
    && (forall x :: !lt(x, x))
    && (forall x, y, z :: lt(x, y) && lt(y, z) ==> lt(x, z))
    && (forall x, y :: x != y ==> lt(x, y) || lt(y, x))
  }

  /** Every earlier element is below every later one (hence no duplicates). */
  ghost predicate Increasing<K>(ks: seq<K>, lt: (K, K) -> bool) {
    forall i, j :: 0 <= i < j < |ks| ==> lt(ks[i], ks[j])
  }

  ghost predicate NoDups<K>(ks: seq<K>) {
    forall i, j :: 0 <= i < j < |ks| ==> ks[i] != ks[j]
  }

  lemma {:induction false} StrLtIrreflexive(a: string)
    ensures !StrLt(a, a)
    decreases |a|
  {
    if |a| > 0 {
      StrLtIrreflexive(a[1..]);
    }
  }

  lemma {:induction false} StrLtTransitive(a: string, b: string, c: string)
    requires StrLt(a, b) && StrLt(b, c)
    ensures StrLt(a, c)
    decreases |a|
  {
    if |a| > 0 && a[0] == b[0] && b[0] == c[0] {
      StrLtTransitive(a[1..], b[1..], c[1..]);
    }
  }

  lemma {:induction false} StrLtConnected(a: string, b: string)
    requires a != b
    ensures StrLt(a, b) || StrLt(b, a)
    decreases |a|
  {
    if |a| > 0 && |b| > 0 && a[0] == b[0] {
      assert a == [a[0]] + a[1..] && b == [b[0]] + b[1..];
      StrLtConnected(a[1..], b[1..]);
    }
  }

  lemma StrLtIsStrictTotal()
    ensures StrictTotal(StrLt)
  {
    forall x: string ensures !StrLt(x, x) {
      StrLtIrreflexive(x);
    }
    forall x: string, y: string, z: string | StrLt(x, y) && StrLt(y, z) ensures StrLt(x, z) {
      StrLtTransitive(x, y, z);
    }
    forall x: string, y: string | x != y ensures StrLt(x, y) || StrLt(y, x) {
      StrLtConnected(x, y);
    }
  }

  lemma IntLtIsStrictTotal()
    ensures StrictTotal(IntLt)
  {
  }

  lemma IncreasingHasNoDups<K(!new)>(ks: seq<K>, lt: (K, K) -> bool)
    requires StrictTotal(lt) && Increasing(ks, lt)
    ensures NoDups(ks)
  {
  }

  /** The column `f` of the rows `s`, in row order. */
  function MapSeq<T, K>(s: seq<T>, f: T -> K): (r: seq<K>)
    ensures |r| == |s|
    ensures forall i :: 0 <= i < |s| ==> r[i] == f(s[i])
  {
    if |s| == 0 then [] else [f(s[0])] + MapSeq(s[1..], f)
  }

  lemma MapSeqMember<T, K>(s: seq<T>, f: T -> K, x: T)
    requires x in s
    ensures f(x) in MapSeq(s, f)
  {
    var i :| 0 <= i < |s| && s[i] == x;
    assert MapSeq(s, f)[i] == f(x);
  }

  /** The distinct elements of `ks` in order of first appearance. */
  function Distinct<K(==, !new)>(ks: seq<K>): (r: seq<K>)
    ensures forall x :: x in r <==> x in ks
    ensures NoDups(r)
    ensures |r| <= |ks|
  {
    if |ks| == 0 then []
    else
      var d := Distinct(ks[..|ks| - 1]);
      if ks[|ks| - 1] in d then d else d + [ks[|ks| - 1]]
  }

  /** Position of the first occurrence of `x` in `ks`. */
  function FirstIndex<K(==)>(ks: seq<K>, x: K): (i: nat)
    requires x in ks
    ensures i < |ks| && ks[i] == x
    ensures forall j :: 0 <= j < i ==> ks[j] != x
  {
    if ks[0] == x then 0 else 1 + FirstIndex(ks[1..], x)
  }

  lemma {:induction false} FirstIndexOfPrefix<K>(ks: seq<K>, n: nat, x: K)
    requires n <= |ks| && x in ks[..n]
    ensures FirstIndex(ks, x) == FirstIndex(ks[..n], x)
  {
    var i := FirstIndex(ks[..n], x);
    var j := FirstIndex(ks, x);
    assert ks[i] == x;
    assert ks[..n][j] == x by {
      assert !(i < j);
    }
  }

  /** `Distinct` lists the elements in the order in which each first occurs. */
  lemma {:induction false} DistinctFirstAppearance<K(!new)>(ks: seq<K>)
    ensures forall i, j :: 0 <= i < j < |Distinct(ks)| ==>
      FirstIndex(ks, Distinct(ks)[i]) < FirstIndex(ks, Distinct(ks)[j])
    decreases |ks|
  {
    if |ks| > 0 {
      var n := |ks| - 1;
      var p := ks[..n];
      var d := Distinct(p);
      DistinctFirstAppearance(p);
      var r := Distinct(ks);
      assert r == if ks[n] in d then d else d + [ks[n]];
      forall i, j | 0 <= i < j < |r| ensures FirstIndex(ks, r[i]) < FirstIndex(ks, r[j]) {
        assert i < |d| && r[i] == d[i] && d[i] in d;
        FirstIndexOfPrefix(ks, n, d[i]);
        if j < |d| {
          assert r[j] == d[j] && d[j] in d;
          FirstIndexOfPrefix(ks, n, d[j]);
        } else {
          assert r[j] == ks[n] && ks[n] !in p;
          assert FirstIndex(ks, ks[n]) == n;
        }
      }
    }
  }

  /** `ks` with `k` inserted at its place, unless it is already there. */
  function InsertKey<K(==, !new)>(ks: seq<K>, k: K, lt: (K, K) -> bool): (r: seq<K>)
    requires StrictTotal(lt) && Increasing(ks, lt)
    ensures Increasing(r, lt)
    ensures forall x :: x in r <==> x in ks || x == k
  {
    if |ks| == 0 then [k]
    else if k == ks[0] then ks
    else if lt(k, ks[0]) then [k] + ks
    else
      var rest := InsertKey(ks[1..], k, lt);
      assert forall x :: x in rest ==> lt(ks[0], x);
      [ks[0]] + rest
  }

  /** The distinct elements of `ks` in ascending order: the group keys of a `groupby`. */
  function SortedKeys<K(==, !new)>(ks: seq<K>, lt: (K, K) -> bool): (r: seq<K>)
    requires StrictTotal(lt)
    ensures Increasing(r, lt)
    ensures forall x :: x in r <==> x in ks
  {
    if |ks| == 0 then [] else InsertKey(SortedKeys(ks[..|ks| - 1], lt), ks[|ks| - 1], lt)
  }
}
