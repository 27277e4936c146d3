/** The Python string operations the converter relies on: `str.strip()`,
    `str.split(sep)`, the substring test `p in s` and `str.endswith`. */
module Strings {

  /** `str.isspace()` for one character: the characters Python's
      argument-less `strip()` removes. */
  predicate IsSpace(c: char) {
    if c <= ' ' then '\t' <= c <= '\r' || '\U{1C}' <= c
    else if c < '\U{2000}' then c == '\U{85}' || c == '\U{A0}' || c == '\U{1680}'
    else c <= '\U{200A}' || c == '\U{2028}' || c == '\U{2029}' || c == '\U{202F}'
         || c == '\U{205F}' || c == '\U{3000}'
  }

  predicate AllSpace(s: string) {
    forall i :: 0 <= i < |s| ==> IsSpace(s[i])
  }

  /** No leading and no trailing whitespace. */
  predicate Bordered(s: string) {
    s == [] || (!IsSpace(s[0]) && !IsSpace(s[|s| - 1]))
  }

  /** `s.lstrip()`: drops the longest all-whitespace prefix. */
  function TrimStart(s: string): string
    decreases |s|
  {
    if |s| > 0 && IsSpace(s[0]) then TrimStart(s[1..]) else s
  }

  /** `s.rstrip()`: drops the longest all-whitespace suffix. */
  function TrimEnd(s: string): string
    decreases |s|
  {
    if |s| > 0 && IsSpace(s[|s| - 1]) then TrimEnd(s[..|s| - 1]) else s
  }

  /** `s.strip()`. */
  function Strip(s: string): string {
    TrimEnd(TrimStart(s))
  }

  /** What `strip()` returns: the text less a whitespace prefix `x` and a
      whitespace suffix `y`, with no whitespace left at either end; a text
      of whitespace only strips to nothing. `StripOf` is the converse. */
  lemma StripShape(s: string) returns (x: string, y: string)
    ensures AllSpace(x) && AllSpace(y) && s == x + Strip(s) + y
    ensures Bordered(Strip(s))
    ensures AllSpace(s) ==> Strip(s) == []
  {
    x := LeadOf(s);
    var u := TrimStart(s);
    y := TrailOf(u);
    var t := TrimEnd(u);
    assert s == x + t + y;
    if t != [] {
      assert t[0] == u[0];
      assert u[0] == s[|x|];
    } else if AllSpace(s) {
    }
  }

  /** `lstrip()` removes whitespace only, and all of it: what is left
      starts with a non-whitespace character. */
  lemma {:induction false} LeadOf(s: string) returns (x: string)
    ensures AllSpace(x) && s == x + TrimStart(s)
    ensures TrimStart(s) == [] || !IsSpace(TrimStart(s)[0])
    decreases |s|
  {
    if |s| > 0 && IsSpace(s[0]) {
      var x' := LeadOf(s[1..]);
      x := [s[0]] + x';
      assert s == [s[0]] + s[1..];
    } else {
      x := [];
    }
  }

  /** `rstrip()` removes whitespace only, and all of it: what is left
      ends with a non-whitespace character. */
  lemma {:induction false} TrailOf(s: string) returns (y: string)
    ensures AllSpace(y) && s == TrimEnd(s) + y
    ensures TrimEnd(s) == [] || !IsSpace(TrimEnd(s)[|TrimEnd(s)| - 1])
    decreases |s|
  {
    if |s| > 0 && IsSpace(s[|s| - 1]) {
      var y' := TrailOf(s[..|s| - 1]);
      y := y' + [s[|s| - 1]];
      assert s == s[..|s| - 1] + [s[|s| - 1]];
    } else {
      y := [];
    }
  }

  lemma {:induction false} TrimStartOf(x: string, z: string)
    requires AllSpace(x)
    requires z == [] || !IsSpace(z[0])
    ensures TrimStart(x + z) == z
    decreases |x|
  {
    if x != [] {
      assert (x + z)[1..] == x[1..] + z;
      TrimStartOf(x[1..], z);
    } else {
      assert x + z == z;
    }
  }

  lemma {:induction false} TrimEndOf(z: string, y: string)
    requires AllSpace(y)
    requires z == [] || !IsSpace(z[|z| - 1])
    ensures TrimEnd(z + y) == z
    decreases |y|
  {
    if y != [] {
      assert (z + y)[..|z + y| - 1] == z + y[..|y| - 1];
      TrimEndOf(z, y[..|y| - 1]);
    } else {
      assert z + y == z;
    }
  }

  /** The independent description of `strip()`: whatever the string is
      surrounded by, as long as the surroundings are whitespace and the
      middle neither starts nor ends with whitespace, the middle is what
      `Strip` returns. */
  lemma StripOf(x: string, t: string, y: string)
    requires AllSpace(x) && AllSpace(y) && Bordered(t)
    ensures Strip(x + t + y) == t
  {
    assert x + t + y == x + (t + y);
    if t == [] {
      assert AllSpace(x + y);
      TrimStartOf(x + y, []);
      assert x + t + y == x + y + [];
    } else {
      TrimStartOf(x, t + y);
    }
    TrimEndOf(t, y);
  }

  /** Every string is its stripped middle surrounded by whitespace. */
  lemma Decompose(s: string) returns (x: string, y: string)
    ensures AllSpace(x) && AllSpace(y) && Bordered(Strip(s))
    ensures s == x + Strip(s) + y
  {
    x := LeadOf(s);
    var u := TrimStart(s);
    y := TrailOf(u);
    var t := Strip(s);
    if t != [] {
      assert t[0] == u[0];
    }
    assert x + (t + y) == x + t + y;
  }

  /** What `strip()` returns has no surrounding whitespace and holds no
      character the original did not. */
  lemma StripInside(s: string, c: char)
    ensures Bordered(Strip(s))
    ensures c !in s ==> c !in Strip(s)
  {
    var x, y := Decompose(s);
  }

  lemma StripIdempotent(s: string)
    ensures Strip(Strip(s)) == Strip(s)
  {
    var x, y := Decompose(s);
    var t := Strip(s);
    StripOf([], t, []);
    assert [] + t + [] == t;
  }

  /** Stripping a line around a non-whitespace separator trims only the
      outer ends of the two sides. */
  lemma StripAround(a: string, c: char, b: string)
    requires !IsSpace(c)
    ensures Strip(a + [c] + b) == TrimStart(a) + [c] + TrimEnd(b)
  {
    var x := LeadOf(a);
    var y := TrailOf(b);
    var t := TrimStart(a) + [c] + TrimEnd(b);
    BorderedAround(TrimStart(a), c, TrimEnd(b));
    Regroup(x, TrimStart(a), c, TrimEnd(b), y);
    StripOf(x, t, y);
  }

  lemma Regroup(x: string, u: string, c: char, v: string, y: string)
    ensures (x + u) + [c] + (v + y) == x + (u + [c] + v) + y
  {
  }

  lemma BorderedAround(ta: string, c: char, tb: string)
    requires !IsSpace(c)
    requires ta == [] || !IsSpace(ta[0])
    requires tb == [] || !IsSpace(tb[|tb| - 1])
    ensures Bordered(ta + [c] + tb)
  {
    var t := ta + [c] + tb;
    if ta == [] {
      assert t[0] == c;
    } else {
      assert t[0] == ta[0];
    }
    if tb == [] {
      assert t[|t| - 1] == c;
    } else {
      assert t[|t| - 1] == tb[|tb| - 1];
    }
  }

  lemma StripTrimStart(s: string)
    ensures Strip(TrimStart(s)) == Strip(s)
  {
    var x := LeadOf(s);
    TrimStartOf([], TrimStart(s));
    assert [] + TrimStart(s) == TrimStart(s);
  }

  lemma StripTrimEnd(s: string)
    ensures Strip(TrimEnd(s)) == Strip(s)
  {
    var x, y := Decompose(s);
    StripTrimEndOf(x, Strip(s), y);
  }

  lemma StripTrimEndOf(x: string, t: string, y: string)
    requires AllSpace(x) && AllSpace(y) && Bordered(t)
    ensures Strip(TrimEnd(x + t + y)) == t
  {
    if t == [] {
      assert AllSpace(x + t + y);
      TrimEndOf([], x + t + y);
      assert [] + (x + t + y) == x + t + y;
    } else {
      assert (x + t)[|x + t| - 1] == t[|t| - 1];
      TrimEndOf(x + t, y);
      StripOf(x, t, []);
      assert x + t + [] == x + t;
    }
  }

  /** Number of occurrences of `c` in `s`. */
  function Count(s: string, c: char): nat
    decreases |s|
  {
    if s == [] then 0 else (if s[0] == c then 1 else 0) + Count(s[1..], c)
  }

  lemma {:induction false} CountAppend(s: string, t: string, c: char)
    ensures Count(s + t, c) == Count(s, c) + Count(t, c)
    decreases |s|
  {
    if s == [] {
      assert s + t == t;
    } else {
      assert (s + t)[1..] == s[1..] + t;
      CountAppend(s[1..], t, c);
    }
  }

  lemma {:induction false} CountAbsent(s: string, c: char)
    ensures Count(s, c) == 0 <==> c !in s
    decreases |s|
  {
    if s != [] {
      CountAbsent(s[1..], c);
      assert s == [s[0]] + s[1..];
    }
  }

  /** Stripping whitespace never removes a non-whitespace character. */
  lemma CountStrip(s: string, c: char)
    requires !IsSpace(c)
    ensures Count(Strip(s), c) == Count(s, c)
  {
    var x, y := Decompose(s);
    var t := Strip(s);
    CountAppend(x + t, y, c);
    CountAppend(x, t, c);
    CountAbsent(x, c);
    CountAbsent(y, c);
  }

  /** `s.split(c)` for a one-character separator: cuts at every
      occurrence, keeping empty pieces, so there is always one piece
      more than there are separators. */
  function Split(s: string, c: char): (parts: seq<string>)
    ensures |parts| == Count(s, c) + 1
    decreases |s|
  {
    if s == [] then [[]]
    else
      var rest := Split(s[1..], c);
      if s[0] == c then [[]] + rest
      else [[s[0]] + rest[0]] + rest[1..]
  }

  /** There is one piece more than there are separators, and no piece
      contains the separator. */
  lemma {:induction false} SplitShape(s: string, c: char)
    ensures |Split(s, c)| == Count(s, c) + 1
    ensures forall i :: 0 <= i < |Split(s, c)| ==> c !in Split(s, c)[i]
    decreases |s|
  {
    if s != [] {
      SplitShape(s[1..], c);
      var rest := Split(s[1..], c);
      if s[0] != c {
        assert forall x :: x in [s[0]] + rest[0] ==> x == s[0] || x in rest[0];
      }
    }
  }

  /** `c.join(parts)`. */
  function Join(parts: seq<string>, c: char): string
    requires |parts| >= 1
    decreases |parts|
  {
    if |parts| == 1 then parts[0] else parts[0] + [c] + Join(parts[1..], c)
  }

  /** Joining the pieces back with the separator restores the string. */
  lemma {:induction false} JoinSplit(s: string, c: char)
    ensures Join(Split(s, c), c) == s
    decreases |s|
  {
    if s != [] {
      var rest := Split(s[1..], c);
      JoinSplit(s[1..], c);
      if s[0] != c && |rest| > 1 {
        assert rest == [rest[0]] + rest[1..];
        assert Join(rest, c) == rest[0] + [c] + Join(rest[1..], c);
      }
    }
  }

  /** Splitting a join of separator-free pieces gives the pieces back. */
  lemma {:induction false} SplitJoin(parts: seq<string>, c: char)
    requires |parts| >= 1
    requires forall i :: 0 <= i < |parts| ==> c !in parts[i]
    ensures Split(Join(parts, c), c) == parts
    decreases |parts|, |parts[0]|
  {
    var p := parts[0];
    if p == [] {
      if |parts| > 1 {
        SplitJoin(parts[1..], c);
        assert Join(parts, c) == [c] + Join(parts[1..], c);
        assert (Join(parts, c))[1..] == Join(parts[1..], c);
        assert parts == [[]] + parts[1..];
      }
    } else {
      var parts' := [p[1..]] + parts[1..];
      assert forall i :: 0 <= i < |parts'| ==> c !in parts'[i] by {
        forall i | 0 <= i < |parts'|
          ensures c !in parts'[i]
        {
          if i == 0 {
            assert forall x :: x in p[1..] ==> x in p;
          } else {
            assert parts'[i] == parts[i];
          }
        }
      }
      SplitJoin(parts', c);
      assert Join(parts, c) == [p[0]] + Join(parts', c) by {
        if |parts| == 1 {
          assert p == [p[0]] + p[1..];
        } else {
          assert parts'[1..] == parts[1..];
          assert p == [p[0]] + p[1..];
        }
      }
      var s := Join(parts, c);
      assert s[1..] == Join(parts', c);
      assert s[0] == p[0] && p[0] != c;
      assert [p[0]] + parts'[0] == p;
      assert parts'[1..] == parts[1..];
      assert parts == [p] + parts[1..];
    }
  }

  /** Index of the first `c` in `s`, or `|s|` when there is none. */
  function IndexOf(s: string, c: char): (i: nat)
    ensures i <= |s|
    ensures c !in s[..i]
    ensures i < |s| <==> c in s
    ensures i < |s| ==> s[i] == c
    decreases |s|
  {
    if s == [] then 0
    else if s[0] == c then 0
    else
      var j := IndexOf(s[1..], c);
      assert s[..j + 1] == [s[0]] + s[1..][..j];
      j + 1
  }

  predicate StartsWith(s: string, p: string) {
    |p| <= |s| && s[..|p|] == p
  }

  /** `s.endswith(p)`. */
  predicate EndsWith(s: string, p: string) {
    |p| <= |s| && s[|s| - |p|..] == p
  }

  /** Python's substring test `p in s`, scanning start positions left to
      right. */
  function Contains(s: string, p: string): (found: bool)
    ensures p == [] ==> found
    ensures found ==> |p| <= |s|
    decreases |s|
  {
    StartsWith(s, p) || (|s| > 0 && Contains(s[1..], p))
  }

  /** `p` occurs in `s` starting at index `i`. */
  predicate OccursAt(s: string, p: string, i: int) {
    0 <= i <= |s| - |p| && s[i..i + |p|] == p
  }

  /** The scan finds `p` exactly when `p` occurs at some position. */
  lemma {:induction false} ContainsAt(s: string, p: string)
    ensures Contains(s, p) <==> exists i :: OccursAt(s, p, i)
    decreases |s|
  {
    if exists i :: OccursAt(s, p, i) {
      var i :| OccursAt(s, p, i);
      if i > 0 {
        OccursInTail(s, p, i - 1);
        ContainsAt(s[1..], p);
      } else {
        assert StartsWith(s, p);
      }
    }
    if Contains(s, p) {
      if StartsWith(s, p) {
        assert OccursAt(s, p, 0);
      } else {
        ContainsAt(s[1..], p);
        var i :| OccursAt(s[1..], p, i);
        OccursInTail(s, p, i);
      }
    }
  }

  /** Dropping the first character moves every occurrence one place to
      the left. */
  lemma OccursInTail(s: string, p: string, i: nat)
    requires s != []
    ensures OccursAt(s, p, i + 1) <==> OccursAt(s[1..], p, i)
  {
    if i + 1 <= |s| - |p| {
      assert s[1..][i..i + |p|] == s[i + 1..i + 1 + |p|];
    }
  }

}
