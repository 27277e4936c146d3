/** `sorted()` on a list of file names: Python compares strings code point
    by code point, and a proper prefix sorts first. */
module Ordering {

  /** `a <= b` on Python strings. */
  function StrLe(a: string, b: string): (le: bool)
    ensures a <= b ==> le
    ensures le && b <= a ==> a == b
    decreases |a|
  {
    if a == [] then true
    else if b == [] then false
    else if a[0] != b[0] then a[0] < b[0]
    else StrLe(a[1..], b[1..])
  }

  lemma {:induction false} StrLeTotal(a: string, b: string)
    ensures StrLe(a, b) || StrLe(b, a)
    decreases |a|
  {
    if a != [] && b != [] && a[0] == b[0] {
      StrLeTotal(a[1..], b[1..]);
    }
  }

  lemma {:induction false} StrLeAntisymmetric(a: string, b: string)
    requires StrLe(a, b) && StrLe(b, a)
    ensures a == b
    decreases |a|
  {
    if a != [] {
      StrLeAntisymmetric(a[1..], b[1..]);
      assert a == [a[0]] + a[1..] && b == [b[0]] + b[1..];
    }
  }

  lemma {:induction false} StrLeTransitive(a: string, b: string, c: string)
    requires StrLe(a, b) && StrLe(b, c)
    ensures StrLe(a, c)
    decreases |a|
  {
    if a != [] && b != [] && c != [] && a[0] == b[0] && b[0] == c[0] {
      StrLeTransitive(a[1..], b[1..], c[1..]);
    }
  }

  predicate Sorted(s: seq<string>) {
    forall i, j :: 0 <= i < j < |s| ==> StrLe(s[i], s[j])
  }

  /** Inserts `x` into a sorted list before the first element above it. */
  function Insert(x: string, s: seq<string>): (r: seq<string>)
    requires Sorted(s)
    ensures Sorted(r)
    ensures multiset(r) == multiset(s) + multiset{x}
    decreases |s|
  {
    if s == [] then [x]
    else if StrLe(x, s[0]) then
      ConsSorted(x, s);
      [x] + s
    else
      SortedTail(s);
      var t := Insert(x, s[1..]);
      ConsAfterInsert(x, s, t);
      [s[0]] + t
  }

  lemma ConsSorted(x: string, s: seq<string>)
    requires Sorted(s) && s != [] && StrLe(x, s[0])
    ensures Sorted([x] + s)
  {
    forall j | 0 <= j < |s|
      ensures StrLe(x, s[j])
    {
      if j > 0 {
        StrLeTransitive(x, s[0], s[j]);
      }
    }
    var r := [x] + s;
    forall i, j | 0 <= i < j < |r|
      ensures StrLe(r[i], r[j])
    {
      assert r[j] == s[j - 1];
      if i > 0 {
        assert r[i] == s[i - 1];
      }
    }
  }

  lemma ConsAfterInsert(x: string, s: seq<string>, t: seq<string>)
    requires Sorted(s) && s != [] && !StrLe(x, s[0])
    requires Sorted(t) && multiset(t) == multiset(s[1..]) + multiset{x}
    ensures Sorted([s[0]] + t)
    ensures multiset([s[0]] + t) == multiset(s) + multiset{x}
  {
    StrLeTotal(x, s[0]);
    assert s == [s[0]] + s[1..];
    forall j | 0 <= j < |t|
      ensures StrLe(s[0], t[j])
    {
      assert t[j] in multiset(t);
      if t[j] != x {
        assert t[j] in multiset(s[1..]);
        var k :| 0 <= k < |s[1..]| && s[1..][k] == t[j];
        assert s[k + 1] == t[j];
      }
    }
    var r := [s[0]] + t;
    forall i, j | 0 <= i < j < |r|
      ensures StrLe(r[i], r[j])
    {
      assert r[j] == t[j - 1];
      if i > 0 {
        assert r[i] == t[i - 1];
      }
    }
  }

  /** `sorted(names)`: the same names, in ascending order. */
  function Sort(s: seq<string>): (r: seq<string>)
    ensures Sorted(r)
    ensures multiset(r) == multiset(s)
    decreases |s|
  {
    if s == [] then []
    else
      assert s == [s[0]] + s[1..];
      Insert(s[0], Sort(s[1..]))
  }

  /** A sorted arrangement of a collection of names is unique: the result
      of `sorted()` depends only on which names there are, not on the
      order they were listed in. */
  lemma {:induction false} SortedUnique(a: seq<string>, b: seq<string>)
    requires Sorted(a) && Sorted(b)
    requires multiset(a) == multiset(b)
    ensures a == b
    decreases |a|
  {
    if a != [] {
      assert |b| == |a| by {
        assert |multiset(a)| == |multiset(b)|;
      }
      SameHead(a, b);
      assert a == [a[0]] + a[1..];
      assert b == [b[0]] + b[1..];
      assert multiset(a) == multiset{a[0]} + multiset(a[1..]);
      assert multiset(b) == multiset{b[0]} + multiset(b[1..]);
      assert multiset(a[1..]) == multiset(a) - multiset{a[0]};
      assert multiset(b[1..]) == multiset(b) - multiset{b[0]};
      SortedTail(a);
      SortedTail(b);
      SortedUnique(a[1..], b[1..]);
    }
  }

  lemma SortedTail(a: seq<string>)
    requires Sorted(a) && a != []
    ensures Sorted(a[1..])
  {
    forall i, j | 0 <= i < j < |a| - 1
      ensures StrLe(a[1..][i], a[1..][j])
    {
      assert a[1..][i] == a[i + 1] && a[1..][j] == a[j + 1];
    }
  }

  lemma SameHead(a: seq<string>, b: seq<string>)
    requires Sorted(a) && Sorted(b) && a != [] && b != []
    requires multiset(a) == multiset(b)
    ensures a[0] == b[0]
  {
    assert a[0] in multiset(b);
    assert b[0] in multiset(a);
    var i :| 0 <= i < |b| && b[i] == a[0];
    var j :| 0 <= j < |a| && a[j] == b[0];
    assert StrLe(b[0], b[i]) by {
      if i == 0 {
        StrLeTotal(b[0], b[0]);
      }
    }
    assert StrLe(a[0], a[j]) by {
      if j == 0 {
        StrLeTotal(a[0], a[0]);
      }
    }
    StrLeAntisymmetric(a[0], b[0]);
  }

  lemma SortListingOrder(a: seq<string>, b: seq<string>)
    requires multiset(a) == multiset(b)
    ensures Sort(a) == Sort(b)
  {
    SortedUnique(Sort(a), Sort(b));
  }
}
