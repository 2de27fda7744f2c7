/** The byte-wise order of `sort.Strings`, and sorting of name sets. */
module NameOrder {

  /** Byte-wise lexicographic order. */
  predicate Less(a: string, b: string) {
    b != "" && (a == "" || a[0] < b[0] || (a[0] == b[0] && Less(a[1..], b[1..])))
  }

  lemma {:induction false} LessTransitive(a: string, b: string, c: string)
    requires Less(a, b) && Less(b, c)
    ensures Less(a, c)
  {
    if a != "" && a[0] == b[0] && b[0] == c[0] {
      LessTransitive(a[1..], b[1..], c[1..]);
    }
  }

  lemma {:induction false} LessTrichotomy(a: string, b: string)
    ensures a == b || Less(a, b) || Less(b, a)
    ensures !(Less(a, b) && Less(b, a))
    ensures Less(a, b) ==> a != b
  {
    if a != "" && b != "" && a[0] == b[0] {
      LessTrichotomy(a[1..], b[1..]);
      assert a == [a[0]] + a[1..] && b == [b[0]] + b[1..];
    }
  }

  ghost predicate StrictlySorted(s: seq<string>) {
    forall i, j :: 0 <= i < j < |s| ==> Less(s[i], s[j])
  }

  ghost function Elements(s: seq<string>): (r: set<string>) {
    set x | x in s
  }

  /** Sorts a set of names, as collecting map keys and calling `sort.Strings` does. */
  method SortNames(names: set<string>) returns (r: seq<string>)
    ensures StrictlySorted(r)
    ensures Elements(r) == names
  {
    r := [];
    var todo := names;
    while todo != {}
      invariant todo <= names
      invariant StrictlySorted(r)
      invariant Elements(r) == names - todo
      decreases todo
    {
      var x :| x in todo;
      assert x !in Elements(r);
      r := InsertSorted(r, x);
      todo := todo - {x};
    }
  }

  method InsertSorted(s: seq<string>, x: string) returns (r: seq<string>)
    requires StrictlySorted(s) && x !in s
    ensures StrictlySorted(r)
    ensures Elements(r) == Elements(s) + {x}
  {
    var k := |s|;
    while k > 0 && Less(x, s[k - 1])
      invariant 0 <= k <= |s|
      invariant forall j :: k <= j < |s| ==> Less(x, s[j])
    {
      k := k - 1;
    }
    r := s[..k] + [x] + s[k..];
    if k > 0 {
      LessTrichotomy(x, s[k - 1]);
      forall i | 0 <= i < k ensures Less(s[i], x) {
        if i < k - 1 { LessTransitive(s[i], s[k - 1], x); }
      }
    }
    assert forall y :: y in r <==> y in s || y == x;
  }

  lemma {:induction false} SortedUnique(a: seq<string>, b: seq<string>)
    requires StrictlySorted(a) && StrictlySorted(b) && forall x :: x in a <==> x in b
    ensures a == b
    decreases |a|
  {
    assert a != [] ==> a[0] in a;
    assert b != [] ==> b[0] in b;
    if a != [] && b != [] {
      var i :| 0 <= i < |b| && b[i] == a[0];
      var j :| 0 <= j < |a| && a[j] == b[0];
      LessTrichotomy(a[0], b[0]);
      assert a[0] == b[0];
      TailElements(a);
      TailElements(b);
      SortedUnique(a[1..], b[1..]);
      assert a == [a[0]] + a[1..] && b == [b[0]] + b[1..];
    }
  }

  lemma TailElements(a: seq<string>)
    requires StrictlySorted(a) && a != []
    ensures StrictlySorted(a[1..]) && forall x :: x in a[1..] <==> x in a && x != a[0]
  {
    forall i | 1 <= i < |a| ensures a[i] != a[0] { LessTrichotomy(a[0], a[i]); }
    assert a == [a[0]] + a[1..];
  }
}
