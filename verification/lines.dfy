/** Python's `str.splitlines()` (without `keepends`), which cuts the text
    of `config.ini` into lines. */
module Lines {

  /** The line boundaries `str.splitlines()` recognises; `"\r\n"` is one
      boundary, handled in `SplitLines`. */
  predicate IsLineBreak(c: char) {
    || c == '\n' || c == '\r' || c == '\U{0B}' || c == '\U{0C}'
    || c == '\U{1C}' || c == '\U{1D}' || c == '\U{1E}'
    || c == '\U{85}' || c == '\U{2028}' || c == '\U{2029}'
  }

  predicate NoBreak(s: string) {
    forall i :: 0 <= i < |s| ==> !IsLineBreak(s[i])
  }

  /** Index of the first line boundary in `s`, or `|s|`. */
  function FirstBreak(s: string): (i: nat)
    ensures i <= |s|
    ensures NoBreak(s[..i])
    ensures i < |s| ==> IsLineBreak(s[i])
    decreases |s|
  {
    if s == [] then 0
    else if IsLineBreak(s[0]) then 0
    else
      var j := FirstBreak(s[1..]);
      assert s[..j + 1] == [s[0]] + s[1..][..j];
      j + 1
  }

  /** `s.splitlines()`: every boundary ends a line; a boundary at the very
      end does not open an empty last line, and the empty text has no
      lines at all. */
  function SplitLines(s: string): (lines: seq<string>)
    ensures forall k :: 0 <= k < |lines| ==> NoBreak(lines[k])
    ensures s == [] <==> lines == []
    decreases |s|
  {
    if s == [] then []
    else
      var i := FirstBreak(s);
      if i == |s| then [s]
      else
        var next := if s[i] == '\r' && i + 1 < |s| && s[i + 1] == '\n' then i + 2 else i + 1;
        [s[..i]] + SplitLines(s[next..])
  }

  /** A line ending a file may write: `"\n"` or `"\r\n"`. */
  predicate IsLineEnd(e: string) {
    e == "\n" || e == "\r\n"
  }

  /** The text of `lines`, line `k` followed by its own ending `ends[k]`. */
  function Written(lines: seq<string>, ends: seq<string>): string
    requires |ends| == |lines|
    decreases |lines|
  {
    if lines == [] then [] else lines[0] + ends[0] + Written(lines[1..], ends[1..])
  }

  /** The lines a text ending in `last` adds after its terminated lines:
      none for an empty tail, else the tail as one more line. */
  function Tail(last: string): seq<string> {
    if last == [] then [] else [last]
  }

  /** `lines` and `ends` pair up: every line is break-free and every
      ending is `"\n"` or `"\r\n"`. */
  predicate Ended(lines: seq<string>, ends: seq<string>) {
    |ends| == |lines| && forall k :: 0 <= k < |lines| ==> NoBreak(lines[k]) && IsLineEnd(ends[k])
  }

  /** A file written line by line, each line ending in `"\n"` or `"\r\n"`
      (the two may be mixed), and possibly a last line with no ending at
      all, splits back into exactly those lines, empty lines included. */
  lemma {:induction false} SplitWritten(lines: seq<string>, ends: seq<string>, last: string)
    requires Ended(lines, ends) && NoBreak(last)
    ensures SplitLines(Written(lines, ends) + last) == lines + Tail(last)
    decreases |lines|
  {
    if lines == [] {
      assert Written(lines, ends) + last == last;
      SplitUnended(last);
    } else {
      var l, e := lines[0], ends[0];
      var rest := Written(lines[1..], ends[1..]) + last;
      assert Ended(lines[1..], ends[1..]) by {
        assert forall k :: 0 <= k < |lines| - 1 ==> lines[1..][k] == lines[k + 1] && ends[1..][k] == ends[k + 1];
      }
      calc {
        SplitLines(Written(lines, ends) + last);
        { assert Written(lines, ends) + last == l + e + rest; }
        SplitLines(l + e + rest);
        { SplitStep(l, e, rest); }
        [l] + SplitLines(rest);
        { SplitWritten(lines[1..], ends[1..], last); }
        [l] + (lines[1..] + Tail(last));
        { assert lines == [l] + lines[1..]; }
        lines + Tail(last);
      }
    }
  }

  /** Text without a boundary is one line, or none when empty. */
  lemma SplitUnended(last: string)
    requires NoBreak(last)
    ensures SplitLines(last) == Tail(last)
  {
    if last != [] {
      assert last[..|last|] == last;
      FirstBreakIs(last, |last|);
    }
  }

  /** A break-free line and its ending come off the front as one line. */
  lemma SplitStep(l: string, e: string, rest: string)
    requires NoBreak(l) && IsLineEnd(e)
    ensures SplitLines(l + e + rest) == [l] + SplitLines(rest)
  {
    var s := l + e + rest;
    BreakAfter(l, e + rest);
    assert s == l + (e + rest);
    assert s[|l|] == e[0];
    assert e == "\r\n" ==> s[|l| + 1] == '\n';
    assert s[..|l|] == l;
    assert s[|l| + |e|..] == rest;
  }

  /** The first boundary of a break-free line followed by a boundary is
      at the end of the line. */
  lemma BreakAfter(l: string, t: string)
    requires NoBreak(l) && t != [] && IsLineBreak(t[0])
    ensures FirstBreak(l + t) == |l|
  {
    var s := l + t;
    assert s[..|l|] == l;
    FirstBreakIs(s, |l|);
  }

  /** `FirstBreak` is pinned down by the position it reports. */
  lemma {:induction false} FirstBreakIs(s: string, j: nat)
    requires j <= |s| && NoBreak(s[..j])
    requires j < |s| ==> IsLineBreak(s[j])
    ensures FirstBreak(s) == j
    decreases j
  {
    if j > 0 {
      assert s[0] == s[..j][0];
      assert s[1..][..j - 1] == s[..j][1..];
      FirstBreakIs(s[1..], j - 1);
    }
  }
}
