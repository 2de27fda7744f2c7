/** Small shared vocabulary: optional values, lists without repetition, the sizes
    of finite collections, and keys split at a separator. */
module Basics {

  datatype Option<+T> = None | Some(value: T)

  ghost predicate Distinct<T>(s: seq<T>) {
    forall i, j :: 0 <= i < j < |s| ==> s[i] != s[j]
  }

  function Below(n: nat): (s: set<nat>)
    ensures |s| == n && forall i: nat :: i in s <==> i < n
  {
    if n == 0 then {} else Below(n - 1) + {n - 1}
  }

  lemma SubsetSize(a: set<nat>, b: set<nat>)
    requires a <= b
    ensures |a| <= |b|
  {
    assert b == a + (b - a);
  }

  lemma RemoveCount<N, F>(m: map<N, F>, x: N)
    requires x in m
    ensures |m - {x}| == |m| - 1
  {
    assert (m - {x}).Keys == m.Keys - {x};
  }

  lemma PutCount<N, F>(m: map<N, F>, x: N, v: F)
    requires x !in m
    ensures |m[x := v]| == |m| + 1
  {
    assert m[x := v].Keys == m.Keys + {x};
  }

  lemma {:induction false} DistinctCount<T>(s: seq<T>)
    requires Distinct(s)
    ensures |set p | p in s| == |s|
  {
    if s != [] {
      var front, last := s[..|s| - 1], s[|s| - 1];
      DistinctCount(front);
      assert (set p | p in s) == (set p | p in front) + {last};
    }
  }

  lemma DistinctWithin<T>(s: seq<T>, t: seq<T>)
    requires Distinct(s) && Distinct(t) && forall p :: p in s ==> p in t
    ensures |s| <= |t|
  {
    DistinctCount(s);
    DistinctCount(t);
    var a, b := set p | p in s, set p | p in t;
    assert b == a + (b - a);
  }

  // ---------------------------------------------------------------- keys

  predicate NoBar(s: string) {
    '|' !in s
  }

  lemma {:induction false} SplitFirst(a: string, x: string, b: string, y: string)
    requires NoBar(a) && NoBar(b) && a + "|" + x == b + "|" + y
    ensures a == b && x == y
  {
    var s := a + "|" + x;
    assert s[|a|] == '|' && s[|b|] == '|';
    assert forall k :: 0 <= k < |a| ==> s[k] == a[k];
    assert forall k :: 0 <= k < |b| ==> s[k] == b[k];
    assert s[..|a|] == a && s[..|b|] == b;
    assert s[|a| + 1..] == x && s[|b| + 1..] == y;
  }

  lemma {:induction false} SplitLast(x: string, a: string, y: string, b: string)
    requires NoBar(a) && NoBar(b) && x + "|" + a == y + "|" + b
    ensures a == b && x == y
  {
    var s := x + "|" + a;
    assert s[|x|] == '|' && s[|y|] == '|';
    assert forall k :: |x| < k < |s| ==> s[k] == a[k - |x| - 1];
    assert forall k :: |y| < k < |s| ==> s[k] == b[k - |y| - 1];
    assert |x| == |y|;
    assert s[..|x|] == x && s[..|y|] == y;
    assert s[|x| + 1..] == a && s[|y| + 1..] == b;
  }
}
