/** The ideal log of a text console: every line ever completed, and the one being composed. */
module Scrollback {

  const SCROLLBACK_LINES: nat := 256
  const MAX_LINE_LEN: nat := 256

  type Line = string

  datatype Log = Log(lines: seq<Line>, current: Line)

  /** Bytes a character takes in UTF-8. */
  function Utf8Len(c: char): (n: nat)
    ensures 1 <= n <= 4
    ensures (n == 1 <==> c as int < 128) && (n <= 2 <==> c as int < 2048) && (n <= 3 <==> c as int < 65536)
  {
    if c as int < 0x80 then 1 else if c as int < 0x800 then 2 else if c as int < 0x1_0000 then 3 else 4
  }

  function ByteLen(line: Line): nat {
    if line == [] then 0 else ByteLen(line[..|line| - 1]) + Utf8Len(line[|line| - 1])
  }

  /** The log after one more character: a newline completes the line, a carriage return leaves it, and
      a full line is completed before it takes another character. */
  function Put(log: Log, c: char): Log {
    if c == '\n' then Log(log.lines + [log.current], [])
    else if c == '\r' then log
    else if ByteLen(log.current) >= MAX_LINE_LEN then Log(log.lines + [log.current], [c])
    else Log(log.lines, log.current + [c])
  }

  function LogOf(text: seq<char>): Log {
    if text == [] then Log([], []) else Put(LogOf(text[..|text| - 1]), text[|text| - 1])
  }

  lemma LogSnoc(text: seq<char>, c: char)
    ensures LogOf(text + [c]) == Put(LogOf(text), c)
  {
  }

  /** The lines a ring of `SCROLLBACK_LINES` keeps. */
  function LastLines(lines: seq<Line>): (r: seq<Line>)
    ensures |r| == if |lines| < SCROLLBACK_LINES then |lines| else SCROLLBACK_LINES
  {
    if |lines| <= SCROLLBACK_LINES then lines else lines[|lines| - SCROLLBACK_LINES..]
  }

  /** The ring's lines are the newest 256, in order. */
  lemma LastLinesMeans(lines: seq<Line>, i: nat)
    requires i < |LastLines(lines)|
    ensures |LastLines(lines)| == if |lines| < 256 then |lines| else 256
    ensures LastLines(lines)[i] == lines[|lines| - |LastLines(lines)| + i]
  {
  }

  lemma LastLinesSnoc(lines: seq<Line>, line: Line)
    ensures var ring := LastLines(lines);
            LastLines(lines + [line]) == (if |ring| == SCROLLBACK_LINES then ring[1..] else ring) + [line]
  {
  }

  // ---- Nothing is lost, and no line grows without bound ----

  function Flatten(lines: seq<Line>): seq<char> {
    if lines == [] then [] else Flatten(lines[..|lines| - 1]) + lines[|lines| - 1]
  }

  /** The characters that are not line control. */
  function Printable(text: seq<char>): seq<char> {
    if text == [] then []
    else
      var c := text[|text| - 1];
      Printable(text[..|text| - 1]) + if c == '\n' || c == '\r' then [] else [c]
  }

  /** Nothing but line feeds and carriage returns is left out, and they always are. */
  lemma {:induction false} PrintableMeans(text: seq<char>, c: char)
    ensures multiset(Printable(text))[c] == if c as int == 10 || c as int == 13 then 0 else multiset(text)[c]
  {
    if text != [] {
      var n := |text| - 1;
      PrintableMeans(text[..n], c);
      assert text == text[..n] + [text[n]];
    }
  }

  lemma FlattenSnoc(lines: seq<Line>, line: Line)
    ensures Flatten(lines + [line]) == Flatten(lines) + line
  {
  }

  /** The log holds every character written, in order. */
  lemma {:induction false} LogConserves(text: seq<char>)
    ensures Flatten(LogOf(text).lines) + LogOf(text).current == Printable(text)
  {
    if text != [] {
      var n := |text| - 1;
      LogConserves(text[..n]);
      var log := LogOf(text[..n]);
      FlattenSnoc(log.lines, log.current);
    }
  }

  lemma ByteLenSnoc(line: Line, c: char)
    ensures ByteLen(line + [c]) == ByteLen(line) + Utf8Len(c)
  {
  }

  ghost predicate Short(line: Line) {
    ByteLen(line) < MAX_LINE_LEN + 4
  }

  /** No line is longer than the cap by more than one character. */
  lemma {:induction false} LogShort(text: seq<char>)
    ensures ByteLen(LogOf(text).current) < 256 + 4
    ensures Short(LogOf(text).current) && forall i :: 0 <= i < |LogOf(text).lines| ==> Short(LogOf(text).lines[i])
  {
    if text != [] {
      var n := |text| - 1;
      LogShort(text[..n]);
      var log := LogOf(text[..n]);
      ByteLenSnoc(log.current, text[n]);
      ByteLenSnoc([], text[n]);
      assert [] + [text[n]] == [text[n]];
    }
  }

  // ---- Where the lines end ----

  /** The character at `p` completes a line: a newline, or a printable one that finds the line full. */
  ghost predicate Breaks(text: seq<char>, p: nat) {
    && p < |text|
    && (text[p] == '\n' || (text[p] != '\r' && ByteLen(LogOf(text[..p]).current) >= MAX_LINE_LEN))
  }

  /** The positions of the characters that complete a line, in order. */
  ghost function Cuts(text: seq<char>): (r: seq<nat>)
    ensures forall i :: 0 <= i < |r| ==> r[i] < |text|
    ensures forall i, j :: 0 <= i < j < |r| ==> r[i] < r[j]
  {
    if text == [] then []
    else
      var n := |text| - 1;
      Cuts(text[..n]) + if Breaks(text, n) then [n] else []
  }

  lemma BreaksBefore(text: seq<char>, p: nat)
    requires p < |text| - 1
    ensures Breaks(text, p) <==> Breaks(text[..|text| - 1], p)
  {
    assert text[..|text| - 1][..p] == text[..p];
  }

  /** The cuts are exactly the breaks. */
  lemma {:induction false} CutsAreBreaks(text: seq<char>, p: nat)
    ensures p in Cuts(text) <==> Breaks(text, p)
    ensures Breaks(text, p) <==>
              p < |text| && (text[p] == '\n' || (text[p] != '\r' && ByteLen(LogOf(text[..p]).current) >= 256))
  {
    if text != [] {
      var n := |text| - 1;
      CutsAreBreaks(text[..n], p);
      if p < n {
        BreaksBefore(text, p);
      }
    }
  }

  /** Where the line that ends at cut `i` starts; the character at a newline cut is not printable. */
  ghost function LineStart(cuts: seq<nat>, i: nat): nat
    requires i <= |cuts|
  {
    if i == 0 then 0 else cuts[i - 1]
  }

  lemma PrintableSnoc(text: seq<char>, from: nat)
    requires from < |text|
    ensures var n := |text| - 1;
            Printable(text[from..])
            == Printable(text[..n][from..]) + if text[n] == '\n' || text[n] == '\r' then [] else [text[n]]
  {
    var n := |text| - 1;
    assert text[from..][..n - from] == text[..n][from..];
  }

  lemma PrintableOne(text: seq<char>)
    requires text != []
    ensures var n := |text| - 1;
            Printable(text[n..]) == if text[n] == '\n' || text[n] == '\r' then [] else [text[n]]
  {
    PrintableSnoc(text, |text| - 1);
    assert text[..|text| - 1][|text| - 1..] == [];
  }

  /** Line `i` of the log is what was printed between two cuts, and it was ended by a newline or because
      it was full. */
  ghost predicate LineAt(text: seq<char>, lines: seq<Line>, cuts: seq<nat>, i: nat) {
    && i < |lines| == |cuts| && LineStart(cuts, i) <= cuts[i] < |text|
    && lines[i] == Printable(text[LineStart(cuts, i)..cuts[i]])
    && (text[cuts[i]] == '\n' || ByteLen(lines[i]) >= MAX_LINE_LEN)
  }

  lemma LineKept(text: seq<char>, lines: seq<Line>, cuts: seq<nat>, i: nat, line: Line)
    requires text != [] && LineAt(text[..|text| - 1], lines, cuts, i)
    ensures LineAt(text, lines, cuts, i) && LineAt(text, lines + [line], cuts + [|text| - 1], i)
  {
    var t := text[..|text| - 1];
    assert t[LineStart(cuts, i)..cuts[i]] == text[LineStart(cuts, i)..cuts[i]];
    assert LineStart(cuts + [|text| - 1], i) == LineStart(cuts, i);
  }

  /** The log, line by line: one line for each cut, and the rest is being composed. */
  ghost predicate CutUp(text: seq<char>, log: Log, cuts: seq<nat>) {
    && |log.lines| == |cuts| && (forall i :: 0 <= i < |cuts| ==> LineAt(text, log.lines, cuts, i))
    && LineStart(cuts, |cuts|) <= |text| && log.current == Printable(text[LineStart(cuts, |cuts|)..])
  }

  lemma CutNext(text: seq<char>, log: Log, cuts: seq<nat>, log': Log)
    requires text != [] && CutUp(text[..|text| - 1], log, cuts) && log'.lines == log.lines + [log.current]
    requires log'.current == Printable(text[|text| - 1..])
    requires text[|text| - 1] == '\n' || ByteLen(log.current) >= MAX_LINE_LEN
    ensures CutUp(text, log', cuts + [|text| - 1])
  {
    var n := |text| - 1;
    forall i | 0 <= i < |cuts|
      ensures LineAt(text, log'.lines, cuts + [n], i)
    {
      LineKept(text, log.lines, cuts, i, log.current);
    }
    assert text[..n][LineStart(cuts, |cuts|)..] == text[LineStart(cuts, |cuts|)..n];
    assert LineStart(cuts + [n], |cuts|) == LineStart(cuts, |cuts|);
    assert LineAt(text, log'.lines, cuts + [n], |cuts|);
  }

  lemma NoCutNext(text: seq<char>, log: Log, cuts: seq<nat>, log': Log)
    requires text != [] && CutUp(text[..|text| - 1], log, cuts) && log'.lines == log.lines
    requires log'.current == Printable(text[LineStart(cuts, |cuts|)..])
    ensures CutUp(text, log', cuts)
  {
    forall i | 0 <= i < |cuts|
      ensures LineAt(text, log.lines, cuts, i)
    {
      LineKept(text, log.lines, cuts, i, log.current);
    }
  }

  /** Every line of the log was completed by a newline or because it was full, and it holds exactly what
      was printed since the line before. */
  lemma {:induction false} LinesAtCuts(text: seq<char>)
    ensures CutUp(text, LogOf(text), Cuts(text))
  {
    if text != [] {
      var n := |text| - 1;
      var log, cuts := LogOf(text[..n]), Cuts(text[..n]);
      LinesAtCuts(text[..n]);
      if Breaks(text, n) {
        PrintableOne(text);
        CutNext(text, log, cuts, Put(log, text[n]));
      } else {
        assert Cuts(text) == cuts + [] == cuts;
        PrintableSnoc(text, LineStart(cuts, |cuts|));
        NoCutNext(text, log, cuts, Put(log, text[n]));
      }
    }
  }
}
