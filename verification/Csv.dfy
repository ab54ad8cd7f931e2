/** The CSV text an export writes, and a reader for quoted fields (section 2 of RFC 4180, LF line ends). */
module Csv {
  import opened Common

  type Line = seq<string>

  const BOM: char := '\U{FEFF}'

  // ---------------------------------------------------------------------------
  // Writing
  // ---------------------------------------------------------------------------

  /** The characters a spreadsheet would take for the start of a formula. */
  predicate Risky(s: string) {
    s != "" && s[0] in ['=', '+', '-', '@', '\t', '\r']
  }

  function Guard(s: string): string {
    if Risky(s) then "'" + s else s
  }

  function Doubled(s: string): string {
    if s == "" then "" else (if s[0] == '"' then "\"\"" else [s[0]]) + Doubled(s[1..])
  }

  function Cell(s: string): string {
    "\"" + Doubled(Guard(s)) + "\""
  }

  function Join(parts: seq<string>, separator: char): string {
    if parts == [] then "" else if |parts| == 1 then parts[0] else parts[0] + [separator] + Join(parts[1..], separator)
  }

  function Cells(line: Line): (r: seq<string>)
    ensures |r| == |line|
  {
    if line == [] then [] else [Cell(line[0])] + Cells(line[1..])
  }

  function Lines(table: seq<Line>): (r: seq<string>)
    ensures |r| == |table|
  {
    if table == [] then [] else [Join(Cells(table[0]), ',')] + Lines(table[1..])
  }

  /** The file: a byte-order mark, the header line, then the rows. */
  function Export(headers: Line, rows: seq<Line>): string {
    [BOM] + Join(Lines([headers] + rows), '\n')
  }

  // ---------------------------------------------------------------------------
  // Reading
  // ---------------------------------------------------------------------------

  /** The rest of a field after its opening quote, and the text behind the closing one. */
  function ReadField(s: string): (r: Option<(string, string)>)
    ensures r.Some? ==> |r.value.1| < |s|
    decreases |s|
  {
    if s == "" then None
    else if s[0] != '"' then
      (match ReadField(s[1..])
       case None => None
       case Some((field, rest)) => Some(([s[0]] + field, rest)))
    else if |s| > 1 && s[1] == '"' then
      (match ReadField(s[2..])
       case None => None
       case Some((field, rest)) => Some((['"'] + field, rest)))
    else Some(("", s[1..]))
  }

  /** One or more quoted fields separated by commas. */
  function ReadLine(s: string): (r: Option<(Line, string)>)
    ensures r.Some? ==> |r.value.1| < |s| && r.value.0 != []
    decreases |s|
  {
    if s == "" || s[0] != '"' then None
    else
      match ReadField(s[1..])
      case None => None
      case Some((field, rest)) =>
        if rest == "" || rest[0] != ',' then Some(([field], rest))
        else
          match ReadLine(rest[1..])
          case None => None
          case Some((line, after)) => Some(([field] + line, after))
  }

  /**
   * What to make of an empty line: refuse it, take it for a row without cells, or,
   * as the grammar in section 2 of RFC 4180, for a row of one empty field.
   */
  datatype Reader = Strict | Lenient | Grammar

  /** The fields up to the end of the line. */
  function ReadRow(reader: Reader, s: string): (r: Option<(Line, string)>)
    ensures r.Some? ==> |r.value.1| <= |s|
  {
    if reader != Strict && (s == "" || s[0] == '\n') then Some((if reader == Lenient then [] else [""], s))
    else ReadLine(s)
  }

  /** Lines separated by LF, up to the end of the text. */
  function ReadLines(reader: Reader, s: string): Option<seq<Line>>
    decreases |s|
  {
    match ReadRow(reader, s)
    case None => None
    case Some((line, rest)) =>
      if rest == "" then Some([line])
      else if rest[0] != '\n' then None
      else
        match ReadLines(reader, rest[1..])
        case None => None
        case Some(lines) => Some([line] + lines)
  }

  function Import(reader: Reader, text: string): Option<seq<Line>> {
    if text == "" || text[0] != BOM then None else ReadLines(reader, text[1..])
  }

  // ---------------------------------------------------------------------------
  // The round trip
  // ---------------------------------------------------------------------------

  function GuardAll(line: Line): (r: Line)
    ensures |r| == |line|
  {
    if line == [] then [] else [Guard(line[0])] + GuardAll(line[1..])
  }

  function GuardTable(table: seq<Line>): (r: seq<Line>)
    ensures |r| == |table|
    ensures forall i :: 0 <= i < |table| ==> r[i] == GuardAll(table[i])
  {
    if table == [] then [] else [GuardAll(table[0])] + GuardTable(table[1..])
  }

  lemma {:induction false} FieldRoundTrip(s: string, rest: string)
    requires rest == "" || rest[0] != '"'
    ensures ReadField(Doubled(s) + "\"" + rest) == Some((s, rest))
  {
    var text := Doubled(s) + "\"" + rest;
    if s == "" {
      assert text == ['"'] + rest;
      assert text[1..] == rest;
    } else {
      FieldRoundTrip(s[1..], rest);
      var tail := Doubled(s[1..]) + "\"" + rest;
      if s[0] == '"' {
        assert text == ['"', '"'] + tail;
        assert text[2..] == tail;
      } else {
        assert text == [s[0]] + tail;
        assert text[1..] == tail;
      }
      assert [s[0]] + s[1..] == s;
    }
  }

  /** What follows the first field of a written line. */
  function Behind(line: Line, rest: string): string
    requires line != []
  {
    if |line| == 1 then rest else [','] + (Join(Cells(line[1..]), ',') + rest)
  }

  lemma LineStartsWithItsField(line: Line, rest: string)
    requires line != []
    ensures var text := Join(Cells(line), ',') + rest;
            && text != "" && text[0] == '"'
            && text[1..] == Doubled(Guard(line[0])) + "\"" + Behind(line, rest)
  {
    JoinedLine(line, rest);
    CellThen(Doubled(Guard(line[0])), Behind(line, rest));
  }

  lemma CellThen(d: string, behind: string)
    ensures var text := "\"" + d + "\"" + behind;
            && text != "" && text[0] == '"'
            && text[1..] == d + "\"" + behind
  {
  }

  lemma JoinedLine(line: Line, rest: string)
    requires line != []
    ensures Join(Cells(line), ',') + rest == Cell(line[0]) + Behind(line, rest)
  {
    var cells := Cells(line);
    assert cells[0] == Cell(line[0]) && cells[1..] == Cells(line[1..]);
    if |line| > 1 {
      Regroup(cells[0], [','], Join(cells[1..], ','), rest);
    }
  }

  lemma Regroup(a: string, b: string, c: string, d: string)
    ensures (a + b + c) + d == a + (b + (c + d))
  {
  }

  /** A written line followed by nothing or by a newline reads back as its guarded cells. */
  lemma {:induction false} LineRoundTrip(line: Line, rest: string)
    requires line != []
    requires rest == "" || rest[0] == '\n'
    ensures ReadLine(Join(Cells(line), ',') + rest) == Some((GuardAll(line), rest))
  {
    LineStartsWithItsField(line, rest);
    FieldRoundTrip(Guard(line[0]), Behind(line, rest));
    if |line| > 1 {
      LineRoundTrip(line[1..], rest);
      assert Behind(line, rest)[1..] == Join(Cells(line[1..]), ',') + rest;
    } else {
      assert GuardAll(line) == [Guard(line[0])];
    }
  }

  /** What the reader makes of a written line; nothing when it refuses it. */
  function AsRead(reader: Reader, line: Line): Option<Line> {
    if line != [] then Some(GuardAll(line))
    else if reader == Strict then None
    else Some(if reader == Lenient then [] else [""])
  }

  function AllAsRead(reader: Reader, table: seq<Line>): Option<seq<Line>> {
    if table == [] then Some([])
    else
      var head, tail := AsRead(reader, table[0]), AllAsRead(reader, table[1..]);
      if head.None? || tail.None? then None else Some([head.value] + tail.value)
  }

  lemma RowRoundTrip(reader: Reader, line: Line, rest: string)
    requires rest == "" || rest[0] == '\n'
    ensures ReadRow(reader, Join(Cells(line), ',') + rest) ==
              if AsRead(reader, line).Some? then Some((AsRead(reader, line).value, rest)) else None
  {
    if line == [] {
      assert Join(Cells(line), ',') + rest == rest;
    } else {
      LineStartsWithItsField(line, rest);
      LineRoundTrip(line, rest);
    }
  }

  /** The text of several lines is the first one, a line feed, and the others. */
  lemma JoinedLines(table: seq<Line>)
    requires |table| > 1
    ensures Join(Lines(table), '\n') == Join(Cells(table[0]), ',') + (['\n'] + Join(Lines(table[1..]), '\n'))
  {
    assert Lines(table)[1..] == Lines(table[1..]);
  }

  /** The written lines read back line by line. */
  lemma {:induction false} LinesRoundTrip(reader: Reader, table: seq<Line>)
    requires table != []
    ensures ReadLines(reader, Join(Lines(table), '\n')) == AllAsRead(reader, table)
  {
    var text, line := Join(Lines(table), '\n'), Join(Cells(table[0]), ',');
    if |table| == 1 {
      RowRoundTrip(reader, table[0], "");
      assert text == line + "";
      assert AllAsRead(reader, table[1..]) == Some([]);
      assert forall x: Line :: [x] + [] == [x];
    } else {
      var more := Join(Lines(table[1..]), '\n');
      JoinedLines(table);
      LinesRoundTrip(reader, table[1..]);
      RowRoundTrip(reader, table[0], ['\n'] + more);
      assert (['\n'] + more)[1..] == more;
    }
  }

  lemma ImportReadsTheLines(reader: Reader, headers: Line, rows: seq<Line>)
    ensures Import(reader, Export(headers, rows)) == AllAsRead(reader, [headers] + rows)
  {
    var text := Join(Lines([headers] + rows), '\n');
    assert ([BOM] + text)[1..] == text;
    LinesRoundTrip(reader, [headers] + rows);
  }

  /** Every line has a cell. */
  ghost predicate NoEmptyLine(table: seq<Line>) {
    forall i :: 0 <= i < |table| ==> table[i] != []
  }

  lemma HeadAndTail(table: seq<Line>)
    requires table != []
    ensures NoEmptyLine(table) <==> table[0] != [] && NoEmptyLine(table[1..])
  {
    assert forall i :: 0 < i < |table| ==> table[i] == table[1..][i - 1];
  }

  lemma {:induction false} ReadByAnyone(reader: Reader, table: seq<Line>)
    requires NoEmptyLine(table) || reader == Lenient
    ensures AllAsRead(reader, table) == Some(GuardTable(table))
  {
    if table != [] {
      HeadAndTail(table);
      ReadByAnyone(reader, table[1..]);
    }
  }

  lemma {:induction false} RefusedByTheStrict(table: seq<Line>)
    requires !NoEmptyLine(table)
    ensures AllAsRead(Strict, table).None?
  {
    HeadAndTail(table);
    if table[0] != [] {
      RefusedByTheStrict(table[1..]);
    }
  }

  /** The table with one empty cell in each row that has none. */
  function Padded(table: seq<Line>): seq<Line> {
    if table == [] then [] else [if table[0] == [] then [""] else table[0]] + Padded(table[1..])
  }

  lemma {:induction false} PaddedByTheGrammar(table: seq<Line>)
    ensures AllAsRead(Grammar, table) == Some(GuardTable(Padded(table)))
    ensures |Padded(table)| == |table|
    ensures forall i :: 0 <= i < |table| ==> Padded(table)[i] == if table[i] == [] then [""] else table[i]
  {
    if table != [] {
      PaddedByTheGrammar(table[1..]);
      assert GuardAll([""]) == [""];
    }
  }

  /**
   * The text determines the table: reading an exported file gives back exactly the
   * headers and rows after the formula guard, whatever quotes, commas and newlines
   * the cells contain, and rows without cells as well.
   */
  lemma ExportRoundTrips(headers: Line, rows: seq<Line>)
    ensures Export(headers, rows) != "" && Export(headers, rows)[0] == '\U{FEFF}'
    ensures Import(Lenient, Export(headers, rows)) == Some(GuardTable([headers] + rows))
  {
    ImportReadsTheLines(Lenient, headers, rows);
    ReadByAnyone(Lenient, [headers] + rows);
  }

  /** A reader that wants a field in every line reads the same where every line has a cell, and refuses the file otherwise. */
  lemma StrictReaderRefusesEmptyLines(headers: Line, rows: seq<Line>)
    ensures Import(Strict, Export(headers, rows)) ==
              if NoEmptyLine([headers] + rows) then Some(GuardTable([headers] + rows)) else None
  {
    ImportReadsTheLines(Strict, headers, rows);
    if NoEmptyLine([headers] + rows) {
      ReadByAnyone(Strict, [headers] + rows);
    } else {
      RefusedByTheStrict([headers] + rows);
    }
  }

  /**
   * A reader by the grammar of RFC 4180 reads a row without cells as one empty
   * field, so it gives back the guarded table exactly when every line has a cell,
   * and otherwise that of the padded one.
   */
  lemma GrammarReaderPadsEmptyLines(headers: Line, rows: seq<Line>)
    ensures Import(Grammar, Export(headers, rows)) == Some(GuardTable(Padded([headers] + rows)))
    ensures Import(Grammar, Export(headers, rows)) == Some(GuardTable([headers] + rows)) <==> NoEmptyLine([headers] + rows)
  {
    var table := [headers] + rows;
    ImportReadsTheLines(Grammar, headers, rows);
    PaddedByTheGrammar(table);
    if NoEmptyLine(table) {
      ReadByAnyone(Grammar, table);
    } else {
      var i :| 0 <= i < |table| && table[i] == [];
      assert GuardTable(Padded(table))[i] == GuardAll([""]) != GuardTable(table)[i];
    }
  }

  // ---------------------------------------------------------------------------
  // The guard
  // ---------------------------------------------------------------------------

  /** No guarded cell starts a formula, and an innocent cell is left alone. */
  lemma GuardDisarms(s: string)
    ensures Guard(s) == "" || Guard(s)[0] !in ['=', '+', '-', '@', '\t', '\r']
    ensures s == "" || s[0] !in ['=', '+', '-', '@', '\t', '\r'] ==> Guard(s) == s
    ensures s != "" && s[0] in ['=', '+', '-', '@', '\t', '\r'] ==> Guard(s) == ['\''] + s
  {
  }

  /** Two cells are written alike exactly when they are equal or one is the other with the guard typed in by hand. */
  lemma GuardCollisions(a: string, b: string)
    ensures Guard(a) == Guard(b) <==> a == b || (Risky(a) && b == "'" + a) || (Risky(b) && a == "'" + b)
  {
    if Risky(a) && Risky(b) && Guard(a) == Guard(b) {
      assert Guard(a)[1..] == a && Guard(b)[1..] == b;
    }
  }
}
