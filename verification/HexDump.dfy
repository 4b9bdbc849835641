/** The text of a hex dump (debug.cpp), and how the bytes are read back from it. */
module HexDump {
  import opened Octets
  import opened Tokenizer

  const ROW: nat := 16
  const HEX_WIDTH: nat := 52

  function HexDigit(n: nat): Octet
    requires n < 16
  {
    if n < 10 then (0x30 + n) as char else (0x57 + n) as char
  }

  /** "%02x " for a byte, or three spaces where the data has ended. */
  function Cell(row: seq<Octet>, k: nat): (s: seq<Octet>)
    ensures |s| == 3
  {
    if k < |row| then [HexDigit(row[k] as int / 16), HexDigit(row[k] as int % 16), ' '] else [' ', ' ', ' ']
  }

  /** The first j cells of the group of four that starts at cell i. */
  function Part(row: seq<Octet>, i: nat, j: nat): (s: seq<Octet>)
    ensures |s| == 3 * j
  {
    if j == 0 then [] else Part(row, i, j - 1) + Cell(row, i + j - 1)
  }

  function Group(row: seq<Octet>, i: nat): (s: seq<Octet>)
    ensures |s| == 13
  {
    Part(row, i, 4) + [' ']
  }

  /** The first m groups; four of them make the hex part of a line. */
  function Groups(row: seq<Octet>, m: nat): (s: seq<Octet>)
    ensures |s| == 13 * m
  {
    if m == 0 then [] else Groups(row, m - 1) + Group(row, 4 * (m - 1))
  }

  /** A byte that is not printable shows as a dot. */
  function Shown(c: Octet): Octet {
    if c as int < 0x20 then '.' else if c as int > 0x7f then '.' else c
  }

  function Ascii(row: seq<Octet>): (s: seq<Octet>)
    ensures |s| == |row|
    ensures forall i :: 0 <= i < |row| ==> s[i] == Shown(row[i])
  {
    seq(|row|, i requires 0 <= i < |row| => Shown(row[i]))
  }

  function Line(row: seq<Octet>): seq<Octet> {
    Groups(row, 4) + Ascii(row)
  }

  function FirstRow(bytes: seq<Octet>): seq<Octet> {
    bytes[..Min(ROW, |bytes|)]
  }

  function OtherRows(bytes: seq<Octet>): seq<Octet> {
    bytes[Min(ROW, |bytes|)..]
  }

  /** The lines of a dump. */
  function Lines(bytes: seq<Octet>): seq<seq<Octet>>
    decreases |bytes|
  {
    if bytes == [] then [] else [Line(FirstRow(bytes))] + Lines(OtherRows(bytes))
  }

  /** A line as println ends it. */
  function PrintedLine(row: seq<Octet>): seq<Octet> {
    Line(row) + ['\r'] + ['\n']
  }

  /** The text of a dump. */
  function DumpText(bytes: seq<Octet>): seq<Octet>
    decreases |bytes|
  {
    if bytes == [] then [] else PrintedLine(FirstRow(bytes)) + DumpText(OtherRows(bytes))
  }

  // ---------- reading a dump ----------

  /** The value of a lower-case hexadecimal digit. */
  function DigitOf(c: char): int {
    if '0' <= c <= '9' then c as int - 0x30
    else if 'a' <= c <= 'f' then c as int - 0x57
    else -1
  }

  /** The column of cell k in the hex part. */
  function Column(k: nat): nat {
    13 * (k / 4) + 3 * (k % 4)
  }

  /** The bytes in the columns of a line from cell k on; the first blank cell ends them. */
  function ReadCells(line: string, k: nat): seq<Octet>
    decreases |line|, ROW - k
  {
    var at := Column(k);
    if k >= ROW || at + 1 >= |line| then []
    else
      var high, low := DigitOf(line[at]), DigitOf(line[at + 1]);
      if high < 0 || low < 0 then [] else [(16 * high + low) as char] + ReadCells(line, k + 1)
  }

  function ReadLines(lines: seq<string>): seq<Octet> {
    if lines == [] then [] else ReadCells(lines[0], 0) + ReadLines(lines[1..])
  }

  /** Reads a dump back from its hex columns. */
  function ReadDump(text: string): seq<Octet> {
    ReadLines(Tokens(text, '\n'))
  }

  lemma HexReads(c: Octet)
    ensures DigitOf(HexDigit(c as int / 16)) == c as int / 16
    ensures DigitOf(HexDigit(c as int % 16)) == c as int % 16
    ensures 16 * (c as int / 16) + c as int % 16 == c as int
  {
  }

  lemma {:induction false} PartPlace(row: seq<Octet>, i: nat, j: nat, n: nat, x: nat)
    requires j < n && x < 3
    ensures Part(row, i, n)[3 * j + x] == Cell(row, i + j)[x]
  {
    if j < n - 1 {
      PartPlace(row, i, j, n - 1, x);
    }
  }

  lemma {:induction false} GroupPlace(row: seq<Octet>, g: nat, m: nat, x: nat)
    requires g < m && x < 13
    ensures Groups(row, m)[13 * g + x] == Group(row, 4 * g)[x]
  {
    if g < m - 1 {
      GroupPlace(row, g, m - 1, x);
    }
  }

  /** Cell k stands in its column. */
  lemma CellPlace(row: seq<Octet>, k: nat, x: nat)
    requires k < ROW && x < 3
    ensures Column(k) + 3 <= HEX_WIDTH && Groups(row, 4)[Column(k) + x] == Cell(row, k)[x]
  {
    GroupPlace(row, k / 4, 4, 3 * (k % 4) + x);
    PartPlace(row, 4 * (k / 4), k % 4, 4, x);
  }

  lemma ReadHit(line: string, k: nat, c: Octet)
    requires k < ROW && Column(k) + 1 < |line|
    requires line[Column(k)] == HexDigit(c as int / 16) && line[Column(k) + 1] == HexDigit(c as int % 16)
    ensures ReadCells(line, k) == [c] + ReadCells(line, k + 1)
  {
    HexReads(c);
  }

  /** line holds the hex digits of row in their columns, and a blank behind them. */
  ghost predicate Holds(line: string, row: seq<Octet>) {
    && |row| <= ROW && |line| >= HEX_WIDTH
    && (forall j :: 0 <= j < |row| ==>
                      && line[Column(j)] == HexDigit(row[j] as int / 16)
                      && line[Column(j) + 1] == HexDigit(row[j] as int % 16))
    && (|row| < ROW ==> line[Column(|row|)] == ' ')
  }

  lemma CellHolds(row: seq<Octet>, k: nat, tail: seq<Octet>)
    requires k < ROW
    ensures Column(k) + 1 < HEX_WIDTH
    ensures (Groups(row, 4) + tail)[Column(k)] == Cell(row, k)[0]
    ensures (Groups(row, 4) + tail)[Column(k) + 1] == Cell(row, k)[1]
  {
    CellPlace(row, k, 0);
    CellPlace(row, k, 1);
  }

  lemma CellsHold(row: seq<Octet>, tail: seq<Octet>)
    requires |row| <= ROW
    ensures Holds(Groups(row, 4) + tail, row)
  {
    forall j | 0 <= j < |row|
      ensures (Groups(row, 4) + tail)[Column(j)] == HexDigit(row[j] as int / 16)
           && (Groups(row, 4) + tail)[Column(j) + 1] == HexDigit(row[j] as int % 16)
    {
      CellHolds(row, j, tail);
    }
    if |row| < ROW {
      CellHolds(row, |row|, tail);
    }
  }

  lemma {:induction false} CellsRead(line: string, row: seq<Octet>, k: nat)
    requires Holds(line, row) && k <= |row|
    ensures ReadCells(line, k) == row[k..]
    decreases |row| - k
  {
    if k < |row| {
      ReadHit(line, k, row[k]);
      CellsRead(line, row, k + 1);
      assert row[k..] == [row[k]] + row[k + 1..];
    }
  }

  lemma {:induction false} PartHasNoNewline(row: seq<Octet>, i: nat, j: nat)
    ensures '\n' !in Part(row, i, j)
  {
    if j > 0 {
      PartHasNoNewline(row, i, j - 1);
    }
  }

  lemma {:induction false} GroupsHaveNoNewline(row: seq<Octet>, m: nat)
    ensures '\n' !in Groups(row, m)
  {
    if m > 0 {
      GroupsHaveNoNewline(row, m - 1);
      PartHasNoNewline(row, 4 * (m - 1), 4);
    }
  }

  lemma {:induction false} LinesOfText(bytes: seq<Octet>)
    ensures Tokens(DumpText(bytes), '\n') == Ended(Lines(bytes))
    decreases |bytes|
  {
    if bytes == [] {
      NoTokens('\n');
    } else {
      var row := FirstRow(bytes);
      GroupsHaveNoNewline(row, 4);
      LinesOfText(OtherRows(bytes));
      var line, rest := Line(row) + ['\r'], DumpText(OtherRows(bytes));
      FirstField(line, '\n', rest);
      FirstToken(DumpText(bytes), '\n');
      assert Lines(bytes)[1..] == Lines(OtherRows(bytes));
    }
  }

  /** The lines with the carriage returns that println leaves in them. */
  function Ended(lines: seq<seq<Octet>>): seq<seq<Octet>> {
    if lines == [] then [] else [lines[0] + ['\r']] + Ended(lines[1..])
  }

  lemma RowReads(row: seq<Octet>)
    requires |row| <= ROW
    ensures ReadCells(Line(row) + ['\r'], 0) == row
  {
    var tail := Ascii(row) + ['\r'];
    assert Line(row) + ['\r'] == Groups(row, 4) + tail;
    CellsHold(row, tail);
    CellsRead(Groups(row, 4) + tail, row, 0);
  }

  lemma ReadFirst(line: string, row: seq<Octet>, rest: seq<string>)
    requires ReadCells(line, 0) == row
    ensures ReadLines([line] + rest) == row + ReadLines(rest)
  {
    assert ([line] + rest)[1..] == rest;
  }

  lemma EndedLines(bytes: seq<Octet>)
    requires bytes != []
    ensures Ended(Lines(bytes)) == [Line(FirstRow(bytes)) + ['\r']] + Ended(Lines(OtherRows(bytes)))
  {
    var line, rest := Line(FirstRow(bytes)), Lines(OtherRows(bytes));
    assert Lines(bytes) == [line] + rest;
    assert ([line] + rest)[1..] == rest;
  }

  lemma BytesRead(bytes: seq<Octet>, line: string, rest: seq<string>)
    requires ReadCells(line, 0) == FirstRow(bytes) && ReadLines(rest) == OtherRows(bytes)
    ensures ReadLines([line] + rest) == bytes
  {
    ReadFirst(line, FirstRow(bytes), rest);
    assert bytes == FirstRow(bytes) + OtherRows(bytes);
  }

  lemma {:induction false} LinesRead(bytes: seq<Octet>)
    ensures ReadLines(Ended(Lines(bytes))) == bytes
    decreases |bytes|
  {
    if bytes != [] {
      LinesRead(OtherRows(bytes));
      RowReads(FirstRow(bytes));
      EndedLines(bytes);
      BytesRead(bytes, Line(FirstRow(bytes)) + ['\r'], Ended(Lines(OtherRows(bytes))));
    }
  }

  /** Reading the hex columns of a dump gives back exactly the bytes that were dumped. */
  lemma DumpRoundTrip(bytes: seq<Octet>)
    ensures ReadDump(DumpText(bytes)) == bytes
  {
    LinesOfText(bytes);
    LinesRead(bytes);
  }

  /** A dump has one line for every started row; each has a hex part of 52 columns and one character per byte. */
  lemma {:induction false} DumpShape(bytes: seq<Octet>)
    ensures |Lines(bytes)| == (|bytes| + ROW - 1) / ROW
    ensures forall i :: 0 <= i < |Lines(bytes)| ==>
                          |Lines(bytes)[i]| == HEX_WIDTH + Min(ROW, |bytes| - ROW * i)
    decreases |bytes|
  {
    if bytes != [] {
      var rest := OtherRows(bytes);
      DumpShape(rest);
      assert Lines(bytes) == [Line(FirstRow(bytes))] + Lines(rest);
      forall i | 0 <= i < |Lines(bytes)|
        ensures |Lines(bytes)[i]| == HEX_WIDTH + Min(ROW, |bytes| - ROW * i)
      {
        if i > 0 {
          assert Lines(bytes)[i] == Lines(rest)[i - 1];
        }
      }
    }
  }

  // ---------- every character of a dump ----------

  /** A full line with its end has 70 characters; what is behind it is the dump of the other rows. */
  lemma TextBehind(bytes: seq<Octet>, at: nat)
    requires |bytes| > ROW && at < |DumpText(OtherRows(bytes))|
    ensures |DumpText(bytes)| > 70 + at && DumpText(bytes)[70 + at] == DumpText(OtherRows(bytes))[at]
    ensures OtherRows(bytes) == bytes[16..]
  {
    assert |PrintedLine(FirstRow(bytes))| == 70;
  }

  lemma TextFirst(bytes: seq<Octet>, at: nat)
    requires bytes != [] && at < HEX_WIDTH + |FirstRow(bytes)| + 2
    ensures |DumpText(bytes)| > at && DumpText(bytes)[at] == PrintedLine(FirstRow(bytes))[at]
  {
  }

  /** Behind the 52 columns of line i, the k-th character is the byte itself if it is printable, else a dot. */
  lemma {:induction false} DumpCharacter(bytes: seq<Octet>, i: nat, k: nat)
    requires k < 16 && 16 * i + k < |bytes|
    ensures |DumpText(bytes)| > 70 * i + 52 + k
    ensures DumpText(bytes)[70 * i + 52 + k]
         == if 0x20 <= bytes[16 * i + k] as int <= 0x7f then bytes[16 * i + k] else '.'
    decreases i
  {
    if i == 0 {
      TextFirst(bytes, 52 + k);
      assert Line(FirstRow(bytes))[52 + k] == Ascii(FirstRow(bytes))[k];
    } else {
      DumpCharacter(OtherRows(bytes), i - 1, k);
      TextBehind(bytes, 70 * (i - 1) + 52 + k);
    }
  }

  lemma HexDigitIs(n: nat)
    requires n < 16
    ensures HexDigit(n) == "0123456789abcdef"[n]
  {
  }

  lemma ColumnIs(k: nat)
    requires k < 16
    ensures Column(k) == 3 * k + k / 4
  {
  }

  lemma FirstCell(bytes: seq<Octet>, k: nat, x: nat)
    requires k < 16 && bytes != [] && x < 3
    ensures |DumpText(bytes)| > 3 * k + k / 4 + x
    ensures DumpText(bytes)[3 * k + k / 4 + x] == Cell(FirstRow(bytes), k)[x]
  {
    var row := FirstRow(bytes);
    ColumnIs(k);
    CellPlace(row, k, x);
    TextFirst(bytes, Column(k) + x);
    assert PrintedLine(row)[Column(k) + x] == Groups(row, 4)[Column(k) + x];
  }

  lemma CellIs(row: seq<Octet>, k: nat, x: nat)
    requires x < 3
    ensures Cell(row, k)[x]
         == if x == 2 || k >= |row| then ' '
            else if x == 0 then "0123456789abcdef"[row[k] as int / 16]
            else "0123456789abcdef"[row[k] as int % 16]
  {
    if k < |row| {
      HexDigitIs(row[k] as int / 16);
      HexDigitIs(row[k] as int % 16);
    }
  }

  /**
    Cell k of line i starts in column 3 k + k / 4: two hexadecimal digits and a
    blank, or three blanks behind the data.
   */
  lemma {:induction false} DumpHexCell(bytes: seq<Octet>, i: nat, k: nat, x: nat)
    requires k < 16 && 16 * i < |bytes| && x < 3
    ensures |DumpText(bytes)| > 70 * i + 3 * k + k / 4 + x
    ensures DumpText(bytes)[70 * i + 3 * k + k / 4 + x]
         == if x == 2 || 16 * i + k >= |bytes| then ' '
            else if x == 0 then "0123456789abcdef"[bytes[16 * i + k] as int / 16]
            else "0123456789abcdef"[bytes[16 * i + k] as int % 16]
    decreases i
  {
    hide DumpText;
    if i == 0 {
      FirstCell(bytes, k, x);
      CellIs(FirstRow(bytes), k, x);
    } else {
      DumpHexCell(OtherRows(bytes), i - 1, k, x);
      TextBehind(bytes, 70 * (i - 1) + 3 * k + k / 4 + x);
    }
  }

  lemma FirstGaps(bytes: seq<Octet>, g: nat)
    requires g < 4 && bytes != []
    ensures var n := |FirstRow(bytes)|;
            && |DumpText(bytes)| >= 54 + n && DumpText(bytes)[13 * g + 12] == ' '
            && DumpText(bytes)[52 + n] == '\r' && DumpText(bytes)[53 + n] == '\n'
  {
    var row := FirstRow(bytes);
    GroupPlace(row, g, 4, 12);
    assert PrintedLine(row)[13 * g + 12] == Groups(row, 4)[13 * g + 12];
    TextFirst(bytes, 13 * g + 12);
    TextFirst(bytes, 52 + |row|);
    TextFirst(bytes, 53 + |row|);
  }

  /** The rest of line i: a blank behind each group of four cells, and the line end behind the characters. */
  lemma {:induction false} DumpGaps(bytes: seq<Octet>, i: nat, g: nat)
    requires g < 4 && 16 * i < |bytes|
    ensures var n := if |bytes| - 16 * i < 16 then |bytes| - 16 * i else 16;
            && |DumpText(bytes)| >= 70 * i + 54 + n && DumpText(bytes)[70 * i + 13 * g + 12] == ' '
            && DumpText(bytes)[70 * i + 52 + n] == '\r' && DumpText(bytes)[70 * i + 53 + n] == '\n'
    decreases i
  {
    hide DumpText;
    if i == 0 {
      FirstGaps(bytes, g);
    } else {
      var n := if |bytes| - 16 * i < 16 then |bytes| - 16 * i else 16;
      DumpGaps(OtherRows(bytes), i - 1, g);
      TextBehind(bytes, 70 * (i - 1) + 13 * g + 12);
      TextBehind(bytes, 70 * (i - 1) + 52 + n);
      TextBehind(bytes, 70 * (i - 1) + 53 + n);
    }
  }

  lemma TextLength(bytes: seq<Octet>)
    ensures |DumpText(bytes)| == if bytes == [] then 0 else 54 + |FirstRow(bytes)| + |DumpText(OtherRows(bytes))|
  {
  }

  /** There are no further characters: 54 for each started row and one for each byte. */
  lemma {:induction false} DumpLength(bytes: seq<Octet>)
    ensures |DumpText(bytes)| == 54 * ((|bytes| + 15) / 16) + |bytes|
    decreases |bytes|
  {
    hide DumpText;
    TextLength(bytes);
    if bytes != [] {
      DumpLength(OtherRows(bytes));
    }
  }
}
