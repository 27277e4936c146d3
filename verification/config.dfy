/** `SL1Reader._read_config`: the text of `config.ini` becomes a map from
    setting name to setting value. Both scripts carry the same reader
    (SL1_to_Photon.py:20-29, SL1_to_Photon_gui.py:26-35).

    Every line of the text is stripped, split at `'='` and unpacked into
    exactly two names, so a line must hold exactly one `'='`; an empty line
    unpacks into one name and fails as well. Key and value are stripped
    again, and a later line overwrites the value of an earlier line with
    the same key. The first line that does not unpack stops the parse. */
module Config {
  import opened Outcomes
  import opened Strings
  import Lines

  datatype Setting = Setting(key: string, value: string)

  /** One iteration of the loop: `key, value = line.strip().split('=')`
      followed by stripping both names. */
  function ParseLine(line: string): Option<Setting> {
    var parts := Split(Strip(line), '=');
    if |parts| == 2 then Some(Setting(Strip(parts[0]), Strip(parts[1])))
    else None
  }

  /** An accepted line yields a key and a value with no surrounding
      whitespace and no `'='` in either. */
  lemma ParseLineShape(line: string)
    ensures ParseLine(line).Some? ==>
              var s := ParseLine(line).value;
              && Bordered(s.key) && '=' !in s.key
              && Bordered(s.value) && '=' !in s.value
  {
    var parts := Split(Strip(line), '=');
    if |parts| == 2 {
      SplitShape(Strip(line), '=');
      StripInside(parts[0], '=');
      StripInside(parts[1], '=');
    }
  }

  /** A line the reader accepts holds exactly one `'='`. */
  predicate WellFormed(line: string) {
    Count(line, '=') == 1
  }

  /** The text before the first `'='` of a line. */
  function LeftSide(line: string): string {
    line[..IndexOf(line, '=')]
  }

  /** The text after the first `'='` of a line (empty without one). */
  function RightSide(line: string): string {
    var i := IndexOf(line, '=');
    if i < |line| then line[i + 1..] else []
  }

  /** The key a well-formed line defines: its trimmed left side. */
  function KeyOf(line: string): string {
    Strip(LeftSide(line))
  }

  /** The value a well-formed line defines: its trimmed right side. */
  function ValueOf(line: string): string {
    Strip(RightSide(line))
  }

  /** A line is accepted exactly when it contains one `'='`: none (an
      empty or blank line included) and two or more are both refused. */
  lemma ParseLineAccepts(line: string)
    ensures ParseLine(line).Some? <==> WellFormed(line)
  {
    CountStrip(line, '=');
    SplitShape(Strip(line), '=');
  }

  /** An accepted line yields its trimmed left side as key and its
      trimmed right side as value. */
  lemma ParseLineSides(line: string)
    requires WellFormed(line)
    ensures ParseLine(line) == Some(Setting(KeyOf(line), ValueOf(line)))
  {
    SplitWellFormed(line);
    StripTrimStart(LeftSide(line));
    StripTrimEnd(RightSide(line));
  }

  /** Splitting a stripped well-formed line gives its two sides, each
      trimmed on the outer end only. */
  lemma SplitWellFormed(line: string)
    requires WellFormed(line)
    ensures Split(Strip(line), '=') == [TrimStart(LeftSide(line)), TrimEnd(RightSide(line))]
  {
    var a := LeftSide(line);
    var b := RightSide(line);
    SidesOfWellFormed(line);
    StripAround(a, '=', b);
    var ta := TrimStart(a);
    var tb := TrimEnd(b);
    TrimmedKeepOut(a, b, '=');
    assert Join([ta, tb], '=') == ta + ['='] + tb;
    SplitJoin([ta, tb], '=');
  }

  /** A well-formed line is its left side, the `'='` and its right side,
      and neither side holds another `'='`. */
  lemma SidesOfWellFormed(line: string)
    requires WellFormed(line)
    ensures line == LeftSide(line) + ['='] + RightSide(line)
    ensures '=' !in LeftSide(line) && '=' !in RightSide(line)
  {
    var i := IndexOf(line, '=');
    CountAbsent(line[..i], '=');
    CountAbsent(line, '=');
    var a := LeftSide(line);
    var b := RightSide(line);
    assert line == a + ['='] + b;
    CountAppend(a + ['='], b, '=');
    CountAppend(a, ['='], '=');
    CountAbsent(b, '=');
  }

  /** Trimming whitespace adds no character. */
  lemma TrimmedKeepOut(a: string, b: string, c: char)
    requires c !in a && c !in b
    ensures c !in TrimStart(a) && c !in TrimEnd(b)
  {
    var lead := LeadOf(a);
    var trail := TrailOf(b);
    assert a == lead + TrimStart(a);
    assert b == TrimEnd(b) + trail;
  }

  /** The loop from line `i` on, with the settings read so far in `acc`. */
  function ParseFrom(lines: seq<string>, i: nat, acc: map<string, string>): (r: Result<map<string, string>>)
    requires i <= |lines|
    ensures r.Ok? ==> acc.Keys <= r.value.Keys
    ensures r.Err? ==> r.error.MalformedConfigLine? && i <= r.error.line < |lines|
    decreases |lines| - i
  {
    if i == |lines| then Ok(acc)
    else match ParseLine(lines[i])
      case None => Err(MalformedConfigLine(i))
      case Some(s) => ParseFrom(lines, i + 1, acc[s.key := s.value])
  }

  /** The settings of a sequence of lines, starting from an empty map. */
  function ParseLines(lines: seq<string>): (r: Result<map<string, string>>)
    ensures r.Ok? <==> forall j :: 0 <= j < |lines| ==> WellFormed(lines[j])
    ensures r.Err? ==> r.error.MalformedConfigLine? && r.error.line < |lines| && !WellFormed(lines[r.error.line])
  {
    ParseFromAccepts(lines, 0, map[]);
    ParseFromStops(lines, 0, map[]);
    ParseFrom(lines, 0, map[])
  }

  /** The settings of the text of `config.ini`. */
  function ParseConfig(text: string): (r: Result<map<string, string>>)
    ensures text == [] ==> r == Ok(map[])
    ensures r.Ok? <==> forall line | line in Lines.SplitLines(text) :: WellFormed(line)
  {
    var lines := Lines.SplitLines(text);
    var r := ParseLines(lines);
    assert text == [] ==> r == ParseFrom([], 0, map[]) == Ok(map[]);
    assert (forall j :: 0 <= j < |lines| ==> WellFormed(lines[j])) <==> forall line | line in lines :: WellFormed(line);
    r
  }

  /** The keys defined by lines `i` onwards. */
  function KeysFrom(lines: seq<string>, i: nat): set<string>
  {
    set j | i <= j < |lines| :: KeyOf(lines[j])
  }

  /** No line after line `j` defines the key line `j` defines. */
  predicate LastFor(lines: seq<string>, j: int)
    requires 0 <= j < |lines|
  {
    forall j' :: j < j' < |lines| ==> KeyOf(lines[j']) != KeyOf(lines[j])
  }

  lemma KeysFromStep(lines: seq<string>, i: nat)
    requires i < |lines|
    ensures KeysFrom(lines, i) == {KeyOf(lines[i])} + KeysFrom(lines, i + 1)
  {
    forall x | x in KeysFrom(lines, i)
      ensures x in {KeyOf(lines[i])} + KeysFrom(lines, i + 1)
    {
      var j :| i <= j < |lines| && KeyOf(lines[j]) == x;
      if j > i {
        assert x in KeysFrom(lines, i + 1);
      }
    }
  }

  /** From line `i` on, the loop runs to the end exactly when every
      remaining line is well formed. */
  lemma {:induction false} ParseFromAccepts(lines: seq<string>, i: nat, acc: map<string, string>)
    requires i <= |lines|
    ensures ParseFrom(lines, i, acc).Ok? <==> forall j :: i <= j < |lines| ==> WellFormed(lines[j])
    decreases |lines| - i
  {
    if i < |lines| {
      ParseFromHead(lines, i, acc);
      if WellFormed(lines[i]) {
        var acc' := acc[KeyOf(lines[i]) := ValueOf(lines[i])];
        ParseFromAccepts(lines, i + 1, acc');
        assert (forall j :: i <= j < |lines| ==> WellFormed(lines[j]))
           <==> (forall j :: i + 1 <= j < |lines| ==> WellFormed(lines[j]));
      }
    }
  }

  /** A loop that fails stops at the first malformed line from line `i`
      on. */
  lemma {:induction false} ParseFromStops(lines: seq<string>, i: nat, acc: map<string, string>)
    requires i <= |lines|
    ensures ParseFrom(lines, i, acc).Err? ==>
              var e := ParseFrom(lines, i, acc).error;
              && e.MalformedConfigLine? && i <= e.line < |lines|
              && !WellFormed(lines[e.line])
              && forall j :: i <= j < e.line ==> WellFormed(lines[j])
    decreases |lines| - i
  {
    var r := ParseFrom(lines, i, acc);
    if r.Err? {
      ParseFromHead(lines, i, acc);
      if WellFormed(lines[i]) {
        var acc' := acc[KeyOf(lines[i]) := ValueOf(lines[i])];
        ParseFromStops(lines, i + 1, acc');
        assert r == ParseFrom(lines, i + 1, acc');
      } else {
        assert r.error.line == i;
      }
    }
  }

  /** The loop stops at a malformed line `i` and otherwise takes it as a
      setting and goes on. */
  lemma ParseFromHead(lines: seq<string>, i: nat, acc: map<string, string>)
    requires i < |lines|
    ensures !WellFormed(lines[i]) ==> ParseFrom(lines, i, acc) == Err(MalformedConfigLine(i))
    ensures WellFormed(lines[i]) ==>
              ParseFrom(lines, i, acc) == ParseFrom(lines, i + 1, acc[KeyOf(lines[i]) := ValueOf(lines[i])])
  {
    ParseLineAccepts(lines[i]);
    if WellFormed(lines[i]) {
      ParseLineSides(lines[i]);
    }
  }

  /** What a successful loop from line `i` adds to the settings `acc`
      read before it. */
  lemma {:induction false} ParseFromContents(lines: seq<string>, i: nat, acc: map<string, string>)
    requires i <= |lines|
    requires ParseFrom(lines, i, acc).Ok?
    ensures ParseFrom(lines, i, acc).value.Keys == acc.Keys + KeysFrom(lines, i)
    ensures forall j :: i <= j < |lines| && LastFor(lines, j) ==>
              ParseFrom(lines, i, acc).value[KeyOf(lines[j])] == ValueOf(lines[j])
    ensures forall k :: k in acc && k !in KeysFrom(lines, i) ==>
              ParseFrom(lines, i, acc).value[k] == acc[k]
    decreases |lines| - i
  {
    if i < |lines| {
      var acc' := ParseFromStep(lines, i, acc);
      ParseFromContents(lines, i + 1, acc');
      KeysFromStep(lines, i);
      ContentsStep(lines, i, acc, ParseFrom(lines, i, acc).value);
    }
  }

  /** A successful loop takes its first line as a setting and goes on
      with the settings it returns. */
  lemma ParseFromStep(lines: seq<string>, i: nat, acc: map<string, string>) returns (acc': map<string, string>)
    requires i < |lines| && ParseFrom(lines, i, acc).Ok?
    ensures acc' == acc[KeyOf(lines[i]) := ValueOf(lines[i])]
    ensures ParseFrom(lines, i, acc) == ParseFrom(lines, i + 1, acc')
  {
    ParseLineAccepts(lines[i]);
    ParseLineSides(lines[i]);
    acc' := acc[KeyOf(lines[i]) := ValueOf(lines[i])];
  }

  /** The contents of the loop from line `i`, given those of the loop
      from line `i + 1` after line `i` set its key. */
  lemma ContentsStep(lines: seq<string>, i: nat, acc: map<string, string>, m: map<string, string>)
    requires i < |lines|
    requires KeysFrom(lines, i) == {KeyOf(lines[i])} + KeysFrom(lines, i + 1)
    requires var acc' := acc[KeyOf(lines[i]) := ValueOf(lines[i])];
             && m.Keys == acc'.Keys + KeysFrom(lines, i + 1)
             && (forall j :: i + 1 <= j < |lines| && LastFor(lines, j) ==> m[KeyOf(lines[j])] == ValueOf(lines[j]))
             && (forall k :: k in acc' && k !in KeysFrom(lines, i + 1) ==> m[k] == acc'[k])
    ensures m.Keys == acc.Keys + KeysFrom(lines, i)
    ensures forall j :: i <= j < |lines| && LastFor(lines, j) ==> m[KeyOf(lines[j])] == ValueOf(lines[j])
    ensures forall k :: k in acc && k !in KeysFrom(lines, i) ==> m[k] == acc[k]
  {
    var k := KeyOf(lines[i]);
    forall j | i <= j < |lines| && LastFor(lines, j)
      ensures m[KeyOf(lines[j])] == ValueOf(lines[j])
    {
      if j == i {
        assert k !in KeysFrom(lines, i + 1);
      }
    }
  }

  /** The parse succeeds exactly when every line holds exactly one `'='`;
      otherwise it fails on the first line that does not. */
  lemma ParseLinesAccepts(lines: seq<string>)
    ensures ParseLines(lines).Ok? <==> forall j :: 0 <= j < |lines| ==> WellFormed(lines[j])
    ensures ParseLines(lines).Err? ==>
              var e := ParseLines(lines).error;
              && e.MalformedConfigLine? && e.line < |lines|
              && !WellFormed(lines[e.line])
              && forall j :: 0 <= j < e.line ==> WellFormed(lines[j])
  {
    ParseFromAccepts(lines, 0, map[]);
    ParseFromStops(lines, 0, map[]);
  }

  /** A successful parse maps exactly the trimmed left sides, and each key
      to the trimmed right side of the last line that defines it. */
  lemma ParseLinesContents(lines: seq<string>)
    requires ParseLines(lines).Ok?
    ensures ParseLines(lines).value.Keys == KeysFrom(lines, 0)
    ensures forall j :: 0 <= j < |lines| && LastFor(lines, j) ==>
              ParseLines(lines).value[KeyOf(lines[j])] == ValueOf(lines[j])
  {
    ParseFromContents(lines, 0, map[]);
  }

  /** A `config.ini` written line by line, with `"\n"` and `"\r\n"`
      endings in any mix and possibly no ending after the last line,
      parses as its lines do. */
  lemma ParseConfigOfLines(lines: seq<string>, ends: seq<string>, last: string)
    requires Lines.Ended(lines, ends) && Lines.NoBreak(last)
    ensures ParseConfig(Lines.Written(lines, ends) + last) == ParseLines(lines + Lines.Tail(last))
  {
    Lines.SplitWritten(lines, ends, last);
  }

  /** A blank line is refused, even after a valid one. */
  lemma BlankLineRefused()
    ensures ParseLines(["a=1", ""]) == Err(MalformedConfigLine(1))
  {
    ParseLineAccepts("a=1");
    ParseLineAccepts("");
    var s := ParseLine("a=1").value;
    assert ParseLines(["a=1", ""]) == ParseFrom(["a=1", ""], 1, map[s.key := s.value]);
  }

  /** A line with two `'='` is refused. */
  lemma DoubleEqualsRefused()
    ensures ParseLines(["a=1=2"]) == Err(MalformedConfigLine(0))
  {
    ParseLineAccepts("a=1=2");
    assert Count("a=1=2", '=') == 2 by {
      assert "a=1=2"[1..] == "=1=2";
      assert "=1=2"[1..] == "1=2";
      assert "1=2"[1..] == "=2";
      assert "=2"[1..] == "2";
    }
  }
}
