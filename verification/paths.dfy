/** Output-path derivation: with no explicit output, both front ends name
    the output after the input with its extension replaced by `.photon`
    (SL1_to_Photon.py:54-58, SL1_to_Photon_gui.py:101-102). Paths are
    POSIX paths: `/` separates components. */
module Paths {
  import opened Strings

  /** `s.rfind(c)`: the last index holding `c`, or -1. */
  function RFind(s: string, c: char): (i: int)
    ensures -1 <= i < |s|
    ensures i >= 0 ==> s[i] == c
    ensures forall j :: i < j < |s| ==> s[j] != c
    decreases |s|
  {
    if s == [] then -1
    else if s[|s| - 1] == c then |s| - 1
    else RFind(s[..|s| - 1], c)
  }

  predicate OnlyDots(s: string) {
    forall i :: 0 <= i < |s| ==> s[i] == '.'
  }

  /** `os.path.basename(p)`: the text after the last `/`. */
  function Basename(p: string): (r: string)
    ensures '/' !in r
    ensures EndsWith(p, r)
    ensures r != p ==> p[|p| - |r| - 1] == '/'
  {
    p[RFind(p, '/') + 1..]
  }

  /** `os.path.splitext(p)`: the extension starts at the last `.` of the
      final component, provided some character before it in that
      component is not a dot (so `.bashrc` and `..` have no extension);
      otherwise the extension is empty. */
  function SplitExt(p: string): (r: (string, string))
    ensures r.0 + r.1 == p
    ensures r.1 == [] || (r.1[0] == '.' && '.' !in r.1[1..] && '/' !in r.1)
  {
    var sep := RFind(p, '/');
    var dot := RFind(p, '.');
    if dot > sep && !OnlyDots(p[sep + 1..dot]) then
      ExtensionShape(p, sep, dot);
      (p[..dot], p[dot..])
    else
      assert p + [] == p;
      (p, [])
  }

  const PhotonExtension: string := ".photon"

  /** The default output path: the input without its extension, plus
      `.photon`. */
  function DeriveOutput(input: string): (o: string)
    ensures EndsWith(o, PhotonExtension)
    ensures SplitExt(input).1 == [] ==> o == input + PhotonExtension
  {
    var o := SplitExt(input).0 + PhotonExtension;
    assert o[|o| - |PhotonExtension|..] == PhotonExtension;
    assert SplitExt(input).1 == [] ==> SplitExt(input).0 == input by {
      assert SplitExt(input).0 + [] == SplitExt(input).0;
    }
    o
  }

  /** `splitext` cuts the path in two: the pieces concatenate back to the
      path, and the extension is empty or one dot followed by no dot and
      no `/`, cut off a final component that keeps a non-dot character. */
  lemma SplitExtShape(p: string)
    ensures SplitExt(p).0 + SplitExt(p).1 == p
    ensures var ext := SplitExt(p).1;
            ext == [] || (ext[0] == '.' && '.' !in ext[1..] && '/' !in ext)
    ensures SplitExt(p).1 != [] ==> !OnlyDots(Basename(SplitExt(p).0))
    ensures forall d :: RFind(p, '/') < d < |p| && p[d] == '.' && !OnlyDots(p[RFind(p, '/') + 1..d])
                        ==> SplitExt(p).1 != []
  {
    SplitExtPieces(p);
    ExtensionCuts(p);
  }

  /** The first three facts of `SplitExtShape`, by the two branches of
      `SplitExt`. */
  lemma SplitExtPieces(p: string)
    ensures SplitExt(p).0 + SplitExt(p).1 == p
    ensures var ext := SplitExt(p).1;
            ext == [] || (ext[0] == '.' && '.' !in ext[1..] && '/' !in ext)
    ensures SplitExt(p).1 != [] ==> !OnlyDots(Basename(SplitExt(p).0))
  {
    var sep := RFind(p, '/');
    var dot := RFind(p, '.');
    if dot > sep && !OnlyDots(p[sep + 1..dot]) {
      ExtensionShape(p, sep, dot);
      StemBasename(p, sep, dot);
    } else {
      assert p + [] == p;
    }
  }

  /** Every dot of the final component that follows a non-dot character
      of that component is enough for `splitext` to cut. */
  lemma ExtensionCuts(p: string)
    ensures forall d :: RFind(p, '/') < d < |p| && p[d] == '.' && !OnlyDots(p[RFind(p, '/') + 1..d])
                        ==> SplitExt(p).1 != []
  {
    forall d | RFind(p, '/') < d < |p| && p[d] == '.' && !OnlyDots(p[RFind(p, '/') + 1..d]) {
      ExtensionCut(p, d);
    }
  }

  /** A dot in the final component that follows a non-dot character of
      that component makes `splitext` cut an extension: the last dot is at
      or after it, so a non-dot character precedes the last dot too. */
  lemma ExtensionCut(p: string, d: int)
    requires RFind(p, '/') < d < |p| && p[d] == '.' && !OnlyDots(p[RFind(p, '/') + 1..d])
    ensures SplitExt(p).1 != []
  {
    var sep := RFind(p, '/');
    var dot := RFind(p, '.');
    assert d <= dot by {
      assert p[d] == '.';
    }
    LongerStem(p, sep + 1, d, dot);
    CutAtLastDot(p);
  }

  /** When the final component has a non-dot character before its last
      dot, `splitext` cuts at that dot. */
  lemma CutAtLastDot(p: string)
    requires RFind(p, '.') > RFind(p, '/')
    requires !OnlyDots(p[RFind(p, '/') + 1..RFind(p, '.')])
    ensures SplitExt(p).1 == p[RFind(p, '.')..] != []
  {
  }

  /** Extending a text that holds a non-dot character keeps one. */
  lemma LongerStem(p: string, lo: int, d: int, hi: int)
    requires 0 <= lo <= d <= hi <= |p|
    requires !OnlyDots(p[lo..d])
    ensures !OnlyDots(p[lo..hi])
  {
    var i :| 0 <= i < d - lo && p[lo..d][i] != '.';
    assert p[lo..hi][i] == p[lo..d][i];
  }

  /** The text from the last `.` on, when no `/` follows that dot, is one
      dot followed by no dot and no `/`. */
  lemma ExtensionShape(p: string, sep: int, dot: int)
    requires sep == RFind(p, '/') && dot == RFind(p, '.') && dot > sep
    ensures p[..dot] + p[dot..] == p
    ensures p[dot..][0] == '.' && '.' !in p[dot..][1..] && '/' !in p[dot..]
  {
    var ext := p[dot..];
    assert forall j :: 0 <= j < |ext| ==> ext[j] == p[dot + j];
  }

  /** Cutting at the last `.` keeps the final component's text before
      that dot as the base name. */
  lemma StemBasename(p: string, sep: int, dot: int)
    requires sep == RFind(p, '/') && dot == RFind(p, '.') && dot > sep
    ensures Basename(p[..dot]) == p[sep + 1..dot]
  {
    RFindPrefix(p, '/', dot);
    assert p[..dot][sep + 1..] == p[sep + 1..dot];
  }

  /** Cutting a text after the last occurrence of `c` keeps that
      occurrence the last one. */
  lemma RFindPrefix(s: string, c: char, n: int)
    requires RFind(s, c) < n <= |s|
    ensures RFind(s[..n], c) == RFind(s, c)
  {
    RFindIs(s[..n], c, RFind(s, c));
  }

  lemma RFindAppendAbsent(b: string, t: string, c: char)
    requires c !in t
    ensures RFind(b + t, c) == RFind(b, c)
  {
    var s := b + t;
    var i := RFind(b, c);
    assert i >= 0 ==> s[i] == c;
  }

  /** Splitting a path that ends in `.photon`: the `.photon` is its
      extension exactly when the component before it keeps a non-dot
      character. */
  lemma SplitExtOfDerived(b: string)
    ensures SplitExt(b + PhotonExtension) ==
              if !OnlyDots(Basename(b)) then (b, PhotonExtension) else (b + PhotonExtension, [])
  {
    var d := b + PhotonExtension;
    RFindAppendAbsent(b, PhotonExtension, '/');
    var sep := RFind(b, '/');
    assert RFind(d, '.') == |b| by {
      assert d[|b|] == '.';
      assert forall j :: |b| < j < |d| ==> d[j] == PhotonExtension[j - |b|];
    }
    assert d[sep + 1..|b|] == Basename(b);
    assert d[..|b|] == b;
    assert d[|b|..] == PhotonExtension;
  }

  /** Deriving again from a derived path changes nothing exactly when the
      input's final component holds a character other than a dot; an
      input such as `dir/` or `..` gains one more `.photon` each time. */
  lemma DeriveFixedPoint(input: string)
    ensures (DeriveOutput(DeriveOutput(input)) == DeriveOutput(input))
            <==> !OnlyDots(Basename(input))
  {
    var b := SplitExt(input).0;
    SplitExtShape(input);
    SplitExtOfDerived(b);
    if SplitExt(input).1 == [] {
      assert b == input by {
        assert b + [] == b;
      }
    } else {
      assert !OnlyDots(Basename(b));
      BasenameKeepsStem(input);
    }
    if OnlyDots(Basename(b)) {
      assert |DeriveOutput(DeriveOutput(input))| > |DeriveOutput(input)|;
    }
  }

  /** A path that has an extension has a final component with a
      character other than a dot. */
  lemma BasenameKeepsStem(p: string)
    requires SplitExt(p).1 != []
    ensures !OnlyDots(Basename(p))
  {
    var sep := RFind(p, '/');
    var dot := RFind(p, '.');
    var stem := p[sep + 1..dot];
    var i :| 0 <= i < |stem| && stem[i] != '.';
    assert Basename(p)[i] == stem[i];
  }

  /** `RFind` is pinned down by the position it reports. */
  lemma RFindIs(s: string, c: char, i: int)
    requires -1 <= i < |s| && (i >= 0 ==> s[i] == c)
    requires forall j :: i < j < |s| ==> s[j] != c
    ensures RFind(s, c) == i
  {
  }

  /** Typical inputs: the last extension is replaced, a dot in a folder
      name is not an extension, and a leading dot does not start one. */
  lemma DeriveExamples()
    ensures DeriveOutput("prints/benchy.sl1") == "prints/benchy.photon"
    ensures DeriveOutput("v1.2/benchy") == "v1.2/benchy.photon"
    ensures DeriveOutput(".sl1") == ".sl1.photon"
  {
    ReplacesExtension();
    FolderDotKept();
    LeadingDotKept();
  }

  lemma ReplacesExtension()
    ensures DeriveOutput("prints/benchy.sl1") == "prints/benchy.photon"
  {
    var p := "prints/benchy.sl1";
    RFindIs(p, '.', 13);
    RFindIs(p, '/', 6);
    assert p[7] != '.';
    assert p[..13] == "prints/benchy";
  }

  lemma FolderDotKept()
    ensures DeriveOutput("v1.2/benchy") == "v1.2/benchy.photon"
  {
    var q := "v1.2/benchy";
    RFindIs(q, '/', 4);
    RFindIs(q, '.', 2);
  }

  lemma LeadingDotKept()
    ensures DeriveOutput(".sl1") == ".sl1.photon"
  {
    var r := ".sl1";
    RFindIs(r, '.', 0);
    RFindIs(r, '/', -1);
  }
}
