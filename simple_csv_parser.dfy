/**
 * SimpleCSVParser: a java.util.Scanner over the whole input. hasNextRecord asks whether a
 * token is left; nextRecord reads one line and splits it with String.split(";").
 */
module SimpleCsv {
  import opened Text

  // ---------------------------------------------------------------------------------------
  // The Scanner calls
  // ---------------------------------------------------------------------------------------

  /** Character.isWhitespace, the default delimiter of a Scanner. */
  predicate IsWhitespace(ch: char) {
    || ('\t' <= ch <= '\r')
    || ('\U{1C}' <= ch <= '\U{1F}')
    || ch == ' '
    || ch == '\U{1680}'
    || ('\U{2000}' <= ch <= '\U{2006}')
    || ('\U{2008}' <= ch <= '\U{200A}')
    || ch == '\U{2028}' || ch == '\U{2029}' || ch == '\U{205F}' || ch == '\U{3000}'
  }

  /** Scanner.hasNext: some character of `s` is not whitespace. */
  predicate HasToken(s: string)
    decreases |s|
  {
    s != [] && (!IsWhitespace(s[0]) || HasToken(s[1..]))
  }

  /** The text Scanner.nextLine returns: everything before the first `\n`. */
  function FirstLine(s: string): (line: string)
    decreases |s|
  {
    if s == [] || s[0] == '\n' then [] else [s[0]] + FirstLine(s[1..])
  }

  /** What Scanner.nextLine leaves unread: everything after the first `\n`. */
  function AfterFirstLine(s: string): (rest: string)
    ensures s != [] ==> |rest| < |s|
    decreases |s|
  {
    if s == [] then []
    else if s[0] == '\n' then s[1..]
    else AfterFirstLine(s[1..])
  }

  // ---------------------------------------------------------------------------------------
  // String.split
  // ---------------------------------------------------------------------------------------

  /** The pieces without the run of empty pieces at their end. */
  function DropTrailingEmpty(parts: seq<string>): (r: seq<string>)
    decreases |parts|
  {
    if parts != [] && parts[|parts| - 1] == [] then DropTrailingEmpty(parts[..|parts| - 1]) else parts
  }

  /**
   * String.split(";") (limit 0): the whole line when it has no `;`, otherwise its `;`-pieces
   * with the empty pieces at the end removed.
   */
  function JavaSplit(line: string): seq<string> {
    if ';' !in line then [line] else DropTrailingEmpty(SplitOn(line, ';'))
  }

  // ---------------------------------------------------------------------------------------
  // The parser object
  // ---------------------------------------------------------------------------------------

  /** The records a fresh parser yields on `s` while hasNextRecord holds. */
  function Records(s: string): seq<seq<string>>
    decreases |s|
  {
    if !HasToken(s) then [] else [JavaSplit(FirstLine(s))] + Records(AfterFirstLine(s))
  }

  /** SimpleCSVParser; `rest` is the input its Scanner has not yet read. */
  class SimpleCsvParser {
    var rest: string

    constructor (csvData: string)
      ensures rest == csvData
    {
      rest := csvData;
    }

    /** hasNextRecord: a non-whitespace character is left. */
    method HasNextRecord() returns (b: bool)
      ensures b <==> exists i :: 0 <= i < |rest| && !IsWhitespace(rest[i])
    {
      HasTokenMeans(rest);
      b := HasToken(rest);
    }

    /**
     * nextRecord: consumes one line and returns its fields. Scanner.nextLine throws when no
     * input is left, so the remaining input must not be empty.
     */
    method NextRecord() returns (fields: seq<string>)
      requires rest != []
      modifies this
      ensures fields == JavaSplit(FirstLine(old(rest)))
      ensures rest == AfterFirstLine(old(rest))
      ensures old(rest) == FirstLine(old(rest)) + (if '\n' in old(rest) then "\n" else "") + rest
    {
      LineSplit(rest);
      var line := FirstLine(rest);
      fields := JavaSplit(line);
      rest := AfterFirstLine(rest);
    }
  }

  // ---------------------------------------------------------------------------------------
  // Properties of the Scanner model
  // ---------------------------------------------------------------------------------------

  /** HasToken holds exactly when some character is not whitespace. */
  lemma {:induction false} HasTokenMeans(s: string)
    ensures HasToken(s) <==> exists i :: 0 <= i < |s| && !IsWhitespace(s[i])
    decreases |s|
  {
    if s != [] {
      HasTokenMeans(s[1..]);
      if HasToken(s[1..]) {
        var i :| 0 <= i < |s[1..]| && !IsWhitespace(s[1..][i]);
        assert !IsWhitespace(s[i + 1]);
      }
      if exists i :: 0 <= i < |s| && !IsWhitespace(s[i]) {
        var i :| 0 <= i < |s| && !IsWhitespace(s[i]);
        if i > 0 {
          assert s[1..][i - 1] == s[i];
        }
      }
    }
  }

  /** A token in a concatenation is a token in one of its parts. */
  lemma {:induction false} HasTokenAppend(a: string, b: string)
    ensures HasToken(a + b) <==> HasToken(a) || HasToken(b)
    decreases |a|
  {
    if a == [] {
      assert a + b == b;
    } else {
      HasTokenAppend(a[1..], b);
      assert (a + b)[1..] == a[1..] + b;
    }
  }

  /** nextLine cuts the input at its first `\n`: the line has no `\n`, and line, `\n` and rest spell the input. */
  lemma {:induction false} LineSplit(s: string)
    ensures '\n' !in FirstLine(s)
    ensures '\n' in s ==> s == FirstLine(s) + "\n" + AfterFirstLine(s)
    ensures '\n' !in s ==> FirstLine(s) == s && AfterFirstLine(s) == []
    decreases |s|
  {
    if s != [] && s[0] != '\n' {
      LineSplit(s[1..]);
      assert s == [s[0]] + s[1..];
      assert '\n' in s <==> '\n' in s[1..];
    }
  }

  // ---------------------------------------------------------------------------------------
  // Properties of String.split
  // ---------------------------------------------------------------------------------------

  /** Dropping trailing empty pieces keeps a prefix, and what it drops is empty. */
  lemma {:induction false} DropTrailingEmptyPrefix(parts: seq<string>)
    ensures var r := DropTrailingEmpty(parts);
            && |r| <= |parts| && r == parts[..|r|]
            && (forall k :: |r| <= k < |parts| ==> parts[k] == [])
            && (r != [] ==> r[|r| - 1] != [])
    decreases |parts|
  {
    if parts != [] && parts[|parts| - 1] == [] {
      var init := parts[..|parts| - 1];
      DropTrailingEmptyPrefix(init);
      var r := DropTrailingEmpty(init);
      assert init[..|r|] == parts[..|r|];
      assert forall k :: |r| <= k < |init| ==> parts[k] == init[k];
    }
  }

  /** Dropping the empty pieces at the end of a split is splitting with the trailing separators removed. */
  lemma {:induction false} DropTrailingEmptySplitOn(s: string, c: char)
    ensures var t := StripTrailing(s, c);
            DropTrailingEmpty(SplitOn(s, c)) == if t == [] then [] else SplitOn(t, c)
    decreases |s|
  {
    if s != [] && s[|s| - 1] == c {
      var init := s[..|s| - 1];
      DropTrailingEmptySplitOn(init, c);
      assert s == init + [c];
      SplitOnSnoc(init, c, c);
      assert SplitOn(s, c) == SplitOn(init, c) + [[]];
      assert (SplitOn(init, c) + [[]])[..|SplitOn(init, c)|] == SplitOn(init, c);
    } else {
      SplitOnLastEmpty(s, c);
      if s == [] {
        assert SplitOn(s, c) == [[]];
        assert SplitOn(s, c)[..0] == [];
      }
    }
  }

  /** The fields of a line never contain `;`. */
  lemma JavaSplitFieldsFree(line: string)
    ensures forall f :: f in JavaSplit(line) ==> ';' !in f
  {
    if ';' in line {
      SplitOnPiecesFree(line, ';');
      DropTrailingEmptyPrefix(SplitOn(line, ';'));
      var parts := SplitOn(line, ';');
      var r := DropTrailingEmpty(parts);
      assert forall k :: 0 <= k < |r| ==> r[k] == parts[k];
    }
  }

  /** A line without `;` is one field, the whole line; the empty line is the one field "". */
  lemma JavaSplitNoSeparator(line: string)
    requires ';' !in line
    ensures JavaSplit(line) == [line]
    ensures line == [] ==> JavaSplit(line) == [""]
  {
  }

  /**
   * The fields are the `;`-pieces of the line in order, leading and interior empty ones
   * included; only empty pieces at the end are missing, and the last field is not empty
   * unless the line is.
   */
  lemma JavaSplitKeepsLeadingPieces(line: string)
    ensures var r := JavaSplit(line);
            var parts := SplitOn(line, ';');
            && |r| <= |parts| && r == parts[..|r|]
            && (forall k :: |r| <= k < |parts| ==> parts[k] == [])
            && (r != [] && r[|r| - 1] == [] ==> line == [])
  {
    if ';' in line {
      DropTrailingEmptyPrefix(SplitOn(line, ';'));
    } else {
      SplitOnNoSeparator(line, ';');
    }
  }

  /** Round trip: joining the fields with `;` gives the line without its trailing `;` characters. */
  lemma JavaSplitJoin(line: string)
    ensures Join(JavaSplit(line), ';') == StripTrailing(line, ';')
  {
    if ';' in line {
      DropTrailingEmptySplitOn(line, ';');
      var t := StripTrailing(line, ';');
      if t != [] {
        JoinSplitOn(t, ';');
      }
    } else {
      assert line == [] || line[|line| - 1] != ';';
    }
  }

  /** Number of fields: none when the line is only `;`s, else one more than the `;`s before the trailing run. */
  lemma JavaSplitFieldCount(line: string)
    ensures var t := StripTrailing(line, ';');
            |JavaSplit(line)| == if ';' in line && t == [] then 0 else Count(t, ';') + 1
  {
    if ';' in line {
      DropTrailingEmptySplitOn(line, ';');
      SplitOnLength(StripTrailing(line, ';'), ';');
    } else {
      SplitOnNoSeparator(line, ';');
      SplitOnLength(line, ';');
      assert line == [] || line[|line| - 1] != ';';
    }
  }

  /**
   * A line that is `;`-free fields joined by `;`, the last one non-empty, followed by any
   * run of `;`, splits into exactly those fields: `"a;b;c;d;"` gives four.
   */
  lemma JavaSplitOfJoinedFields(line: string, fields: seq<string>)
    requires fields != [] && fields[|fields| - 1] != []
    requires forall k :: 0 <= k < |fields| ==> ';' !in fields[k]
    requires StripTrailing(line, ';') == Join(fields, ';')
    ensures JavaSplit(line) == fields
  {
    SplitOnJoin(fields, ';');
    var joined := Join(fields, ';');
    assert joined[|joined| - |fields[|fields| - 1]|..] == fields[|fields| - 1];
    if ';' in line {
      DropTrailingEmptySplitOn(line, ';');
    } else {
      assert line == [] || line[|line| - 1] != ';';
      SplitOnNoSeparator(line, ';');
    }
  }

  /** A line of `;` only has no fields: `";;"` gives none. */
  lemma {:induction false} JavaSplitOnlySeparators(line: string)
    requires line != [] && forall i :: 0 <= i < |line| ==> line[i] == ';'
    ensures JavaSplit(line) == []
  {
    assert line[0] == ';';
    StripTrailingOnlySeparators(line);
    DropTrailingEmptySplitOn(line, ';');
  }

  /** Stripping a run of `c` alone leaves nothing. */
  lemma {:induction false} StripTrailingOnlySeparators(line: string)
    requires forall i :: 0 <= i < |line| ==> line[i] == ';'
    ensures StripTrailing(line, ';') == []
    decreases |line|
  {
    if line != [] {
      StripTrailingOnlySeparators(line[..|line| - 1]);
    }
  }

  // ---------------------------------------------------------------------------------------
  // Records, line by line
  // ---------------------------------------------------------------------------------------

  /** Some line holds a token. */
  predicate AnyToken(lines: seq<string>) {
    exists k :: 0 <= k < |lines| && HasToken(lines[k])
  }

  /**
   * The records of a sequence of lines: each line split in order, up to the last line with a
   * token; blank lines before it give records, blank lines after it do not.
   */
  function RecordsOfLines(lines: seq<string>): seq<seq<string>>
    decreases |lines|
  {
    if !AnyToken(lines) then [] else [JavaSplit(lines[0])] + RecordsOfLines(lines[1..])
  }

  /** A line in front: a token somewhere is a token in it or in the lines after it. */
  lemma AnyTokenCons(line: string, lines: seq<string>)
    ensures AnyToken([line] + lines) <==> HasToken(line) || AnyToken(lines)
  {
    var all := [line] + lines;
    if AnyToken(all) {
      var k :| 0 <= k < |all| && HasToken(all[k]);
      if k > 0 {
        assert all[k] == lines[k - 1];
      }
    }
    if HasToken(line) {
      assert HasToken(all[0]);
    }
    if AnyToken(lines) {
      var k :| 0 <= k < |lines| && HasToken(lines[k]);
      assert all[k + 1] == lines[k];
    }
  }

  /** The lines of input with a `\n` in it: its first line, then the lines of the rest. */
  lemma LinesOfFirstLine(s: string)
    requires '\n' in s
    ensures SplitOn(s, '\n') == [FirstLine(s)] + SplitOn(AfterFirstLine(s), '\n')
  {
    var line := FirstLine(s);
    var after := AfterFirstLine(s);
    LineSplit(s);
    assert s == line + ['\n'] + after;
    SplitOnNoSeparator(line, '\n');
    SplitOnAppendSeparator(line, after, '\n');
  }

  /** Input with a `\n` in it has a token exactly when its first line or the rest has one. */
  lemma TokensOfFirstLine(s: string)
    requires '\n' in s
    ensures HasToken(s) <==> HasToken(FirstLine(s)) || HasToken(AfterFirstLine(s))
  {
    var line := FirstLine(s);
    var after := AfterFirstLine(s);
    LineSplit(s);
    assert s == line + ("\n" + after);
    HasTokenAppend(line, "\n" + after);
    HasTokenAppend("\n", after);
    assert !HasToken("\n");
  }

  /** The parser yields, for the `\n`-separated lines of the input, exactly RecordsOfLines. */
  lemma {:induction false} RecordsByLines(s: string)
    ensures Records(s) == RecordsOfLines(SplitOn(s, '\n'))
    ensures HasToken(s) <==> AnyToken(SplitOn(s, '\n'))
    decreases |s|
  {
    LineSplit(s);
    if '\n' !in s {
      SplitOnNoSeparator(s, '\n');
      AnyTokenCons(s, []);
      assert [s] == [s] + [];
    } else {
      var line := FirstLine(s);
      var after := AfterFirstLine(s);
      RecordsByLines(after);
      LinesOfFirstLine(s);
      TokensOfFirstLine(s);
      var rest := SplitOn(after, '\n');
      AnyTokenCons(line, rest);
      assert ([line] + rest)[0] == line && ([line] + rest)[1..] == rest;
    }
  }

  /** Lines with no token after the last line change nothing. */
  lemma {:induction false} RecordsOfLinesBlankTail(lines: seq<string>, blank: seq<string>)
    requires !AnyToken(blank)
    ensures RecordsOfLines(lines + blank) == RecordsOfLines(lines)
    decreases |lines|
  {
    var all := lines + blank;
    if AnyToken(lines) {
      var k :| 0 <= k < |lines| && HasToken(lines[k]);
      assert all[k] == lines[k];
      RecordsOfLinesBlankTail(lines[1..], blank);
      assert all[1..] == lines[1..] + blank;
    } else {
      forall k | 0 <= k < |all|
        ensures !HasToken(all[k])
      {
        if k < |lines| {
          assert all[k] == lines[k];
        } else {
          assert all[k] == blank[k - |lines|];
        }
      }
    }
  }

  /** Trailing blank lines produce no records. */
  lemma TrailingBlankLinesIgnored(s: string, blank: string)
    requires !HasToken(blank)
    ensures Records(s + "\n" + blank) == Records(s)
  {
    assert s + "\n" + blank == s + ['\n'] + blank;
    RecordsByLines(s + "\n" + blank);
    RecordsByLines(s);
    SplitOnAppendSeparator(s, blank, '\n');
    RecordsByLines(blank);
    RecordsOfLinesBlankTail(SplitOn(s, '\n'), SplitOn(blank, '\n'));
  }
}
