/**
  The debug stream (debug.cpp, debug.h): a filter, a line buffer of 128 bytes and
  a switch between two outputs; and the hex dump that is printed through it.
 */
module DebugStream {
  import opened Octets
  import opened Tokenizer
  import opened HexDump

  const BUFFER_SIZE: nat := 128

  datatype Channel = ViaSerial | ViaTelnet

  /** A combination of the four flags ERROR, PROGRESS, SERIAL_IO and PACKET. */
  datatype Types = Types(error: bool, progress: bool, serialIo: bool, packet: bool)

  const NONE := Types(false, false, false, false)

  /** (a & b) != 0 */
  predicate Meet(a: Types, b: Types) {
    (a.error && b.error) || (a.progress && b.progress) || (a.serialIo && b.serialIo) || (a.packet && b.packet)
  }

  /** The flags as the bits of db_filter: ERROR is 1, PROGRESS 2, SERIAL_IO 4 and PACKET 8. */
  function Bits(t: Types): bv8 {
    (if t.error then 1 else 0) | (if t.progress then 2 else 0)
    | (if t.serialIo then 4 else 0) | (if t.packet then 8 else 0)
  }

  lemma MeetIsAnd(a: Types, b: Types)
    ensures Meet(a, b) <==> Bits(a) & Bits(b) != 0
  {
  }

  /** A write to one of the outputs. */
  datatype Chunk = Chunk(channel: Channel, bytes: seq<Octet>)

  function Handed(chunks: seq<Chunk>): seq<Octet> {
    if chunks == [] then [] else Handed(chunks[..|chunks| - 1]) + chunks[|chunks| - 1].bytes
  }

  /** What is left of a text after the filter. */
  function Kept(on: bool, text: seq<Octet>): seq<Octet> {
    if on then text else []
  }

  lemma HandOver(chunks: seq<Chunk>, c: Chunk)
    ensures Handed(chunks + [c]) == Handed(chunks) + c.bytes
  {
    assert (chunks + [c])[..|chunks|] == chunks;
  }

  class DebugStream {
    const buffer: array<Octet>
    var index: nat
    var channel: Channel
    var filter: Types
    var outputType: Types
    /** What Serial and Telnet were given, in order. */
    var chunks: seq<Chunk>
    /** The bytes the filter let through, in order: the stream without a buffer. */
    ghost var accepted: seq<Octet>

    /**
      The outputs lag behind the accepted bytes by what is buffered, which is less
      than a full buffer and no finished line.
     */
    ghost predicate Valid()
      reads this, buffer
    {
      && buffer.Length == BUFFER_SIZE && index < BUFFER_SIZE
      && Handed(chunks) + buffer[..index] == accepted
      && forall k :: 0 <= k < index ==> buffer[k] != '\n'
    }

    /** Whether the filter lets the present type of output through. */
    ghost predicate On()
      reads this`filter, this`outputType
    {
      Meet(outputType, filter)
    }

    constructor (channel: Channel, filter: Types)
      ensures Valid() && fresh(buffer)
      ensures this.channel == channel && this.filter == filter && outputType == NONE && accepted == [] && chunks == []
    {
      buffer := new Octet[BUFFER_SIZE];
      index := 0;
      this.channel, this.filter, outputType := channel, filter, NONE;
      chunks, accepted := [], [];
    }

    method SetChannel(c: Channel)
      requires Valid()
      modifies this`channel
      ensures Valid() && channel == c
    {
      channel := c;
    }

    method SetFilter(t: Types)
      requires Valid()
      modifies this`filter
      ensures Valid() && filter == t
    {
      filter := t;
    }

    method SetOutput(t: Types)
      requires Valid()
      modifies this`outputType
      ensures Valid() && outputType == t
    {
      outputType := t;
    }

    /** A byte is buffered if the type has a bit in common with the filter; a newline or the 128th byte flushes. */
    method Write(byte: Octet) returns (n: nat)
      requires Valid()
      modifies this`index, this`chunks, this`accepted, buffer
      ensures Valid()
      ensures n == if Bits(outputType) & Bits(filter) != 0 then 1 else 0
      ensures accepted == old(accepted) + (if n == 1 then [byte] else [])
      ensures accepted == old(accepted) + Kept(On(), [byte])
      ensures n == 0 ==> chunks == old(chunks) && index == old(index)
      ensures n == 1 && byte != '\n' && old(index) < 127 ==> chunks == old(chunks) && index == old(index) + 1
      ensures n == 1 && (byte == '\n' || old(index) == 127) ==>
                chunks == old(chunks) + [Chunk(channel, old(buffer[..index]) + [byte])] && index == 0
      ensures n == 1 && byte == '\n' ==> Handed(chunks) == accepted
    {
      MeetIsAnd(outputType, filter);
      if !Meet(outputType, filter) {
        return 0;
      }
      buffer[index] := byte;
      index := index + 1;
      accepted := accepted + [byte];
      assert buffer[..index] == old(buffer[..index]) + [byte];
      if byte == '\n' || index >= BUFFER_SIZE {
        SendBuffer();
      }
      return 1;
    }

    method Flush()
      requires Valid()
      modifies this`index, this`chunks
      ensures Valid() && index == 0 && accepted == Handed(chunks)
      ensures chunks == old(chunks)
                        + if old(index) == 0 then [] else [Chunk(channel, old(buffer[..index]))]
    {
      SendBuffer();
    }

    /** flush() on any buffer, a full or a finished one included. */
    method SendBuffer()
      requires buffer.Length == BUFFER_SIZE && index <= BUFFER_SIZE
      requires Handed(chunks) + buffer[..index] == accepted
      modifies this`index, this`chunks
      ensures index == 0 && Handed(chunks) == accepted
      ensures chunks == old(chunks)
                        + if old(index) == 0 then [] else [Chunk(channel, old(buffer[..index]))]
    {
      if index > 0 {
        HandOver(chunks, Chunk(channel, buffer[..index]));
        chunks := chunks + [Chunk(channel, buffer[..index])];
        index := 0;
      }
    }

    /** Print::write of a text, byte by byte. */
    method Print(text: seq<Octet>)
      requires Valid()
      modifies this`index, this`chunks, this`accepted, buffer
      ensures Valid() && accepted == old(accepted) + Kept(On(), text)
    {
      ghost var on, before := On(), accepted;
      for i := 0 to |text|
        invariant Valid() && accepted == before + Kept(On(), text[..i])
      {
        var _ := Write(text[i]);
        NextByte(on, before, text, i);
      }
      assert text[..|text|] == text;
    }

    static lemma NextByte(on: bool, before: seq<Octet>, text: seq<Octet>, i: nat)
      requires i < |text|
      ensures before + Kept(on, text[..i]) + Kept(on, [text[i]]) == before + Kept(on, text[..i + 1])
    {
      assert text[..i + 1] == text[..i] + [text[i]];
      Extend(on, before, text[..i], [text[i]]);
    }

    /** Prints the first len bytes as hex and as characters, 16 bytes a line. */
    method Dump(bytes: seq<Octet>, len: int)
      requires Valid() && len <= |bytes|
      modifies this`index, this`chunks, this`accepted, buffer
      ensures Valid()
      ensures accepted == old(accepted) + if len > 0 then Kept(On(), DumpText(bytes[..len])) else []
    {
      var asciiBuffer := new Octet[ROW + 1];
      asciiBuffer[ROW] := NUL;
      DumpRows(bytes, len, asciiBuffer, if len > 0 then bytes[..len] else []);
    }

    /** The loop over the lines of the dump. */
    method DumpRows(bytes: seq<Octet>, len: int, asciiBuffer: array<Octet>, ghost data: seq<Octet>)
      requires Valid() && len <= |bytes| && data == if len > 0 then bytes[..len] else []
      requires asciiBuffer != buffer && asciiBuffer.Length == ROW + 1 && asciiBuffer[ROW] == NUL
      modifies this`index, this`chunks, this`accepted, buffer, asciiBuffer
      ensures Valid() && accepted == old(accepted) + Kept(On(), DumpText(data))
    {
      var at, left := 0, len;
      ghost var on, before, done: seq<Octet>, todo := On(), accepted, [], data;
      while left > 0
        invariant Valid() && 0 <= at && left <= len && asciiBuffer[ROW] == NUL
        invariant if left > 0 then at + left == len && todo == bytes[at..len] else todo == []
        invariant DumpText(data) == done + DumpText(todo)
        invariant On() == on && accepted == before + Kept(on, done)
        decreases left
      {
        var n := DumpRow(bytes, at, left, asciiBuffer, FirstRow(todo));
        NextRow(on, before, todo, done);
        RowsBehind(bytes, at, len);
        done, todo := done + PrintedLine(FirstRow(todo)), OtherRows(todo);
        at := at + n;
        left := left - ROW;
      }
      assert done + [] == done;
    }

    static lemma RowsBehind(bytes: seq<Octet>, at: nat, len: nat)
      requires at <= len <= |bytes|
      ensures OtherRows(bytes[at..len]) == if len - at > ROW then bytes[at + ROW..len] else []
    {
    }

    static lemma NextRow(on: bool, before: seq<Octet>, rest: seq<Octet>, done: seq<Octet>)
      requires rest != []
      ensures done + DumpText(rest) == done + PrintedLine(FirstRow(rest)) + DumpText(OtherRows(rest))
      ensures before + Kept(on, done) + Kept(on, PrintedLine(FirstRow(rest)))
           == before + Kept(on, done + PrintedLine(FirstRow(rest)))
    {
      Extend(on, before, done, PrintedLine(FirstRow(rest)));
    }

    /** One line of the dump; n is how far the data pointer moves. */
    method DumpRow(bytes: seq<Octet>, at: nat, left: nat, asciiBuffer: array<Octet>, ghost row: seq<Octet>)
      returns (n: nat)
      requires Valid() && asciiBuffer != buffer
      requires 0 < left && at + left <= |bytes| && row == bytes[at..at + Min(ROW, left)]
      requires asciiBuffer.Length == ROW + 1 && asciiBuffer[ROW] == NUL
      modifies this`index, this`chunks, this`accepted, buffer, asciiBuffer
      ensures Valid() && asciiBuffer[ROW] == NUL && n == |row|
      ensures accepted == old(accepted) + Kept(On(), PrintedLine(row))
    {
      if left < ROW {
        asciiBuffer[left] := NUL;
      }
      ghost var on, before := On(), accepted;
      n := DumpHex(bytes, at, left, asciiBuffer, row);
      TextOfAscii(asciiBuffer[..], row);
      Println(asciiBuffer, |row|);
      Extend(on, before, Groups(row, 4), Ascii(row) + ['\r'] + ['\n']);
      assert Groups(row, 4) + (Ascii(row) + ['\r'] + ['\n']) == PrintedLine(row);
    }

    /** The hex part of a line; the characters of the row are collected on the way. */
    method DumpHex(bytes: seq<Octet>, at: nat, left: nat, asciiBuffer: array<Octet>, ghost row: seq<Octet>)
      returns (n: nat)
      requires Valid() && asciiBuffer != buffer
      requires at + left <= |bytes| && row == bytes[at..at + Min(ROW, left)]
      requires Typed(asciiBuffer, row, 0)
      modifies this`index, this`chunks, this`accepted, buffer, asciiBuffer
      ensures Valid() && n == |row| && Typed(asciiBuffer, row, n)
      ensures accepted == old(accepted) + Kept(On(), Groups(row, 4))
    {
      ghost var on, before, m := On(), accepted, 0;
      n := 0;
      var i := 0;
      while i < ROW
        invariant Valid() && i == 4 * m && m <= 4 && n == Min(i, |row|)
        invariant Typed(asciiBuffer, row, n)
        invariant On() == on && accepted == before + Kept(on, Groups(row, m))
        decreases ROW - i
      {
        n := DumpGroup(bytes, at, left, asciiBuffer, row, i, n);
        NextGroup(on, before, row, m);
        i, m := i + 4, m + 1;
      }
      assert m == 4;
    }

    /** The first n characters of the row are in place, in front of a terminator. */
    static ghost predicate Typed(asciiBuffer: array<Octet>, row: seq<Octet>, n: nat)
      reads asciiBuffer
    {
      && n <= |row| <= ROW && asciiBuffer.Length == ROW + 1
      && asciiBuffer[..n] == Ascii(row)[..n] && asciiBuffer[ROW] == asciiBuffer[|row|] == NUL
    }

    /** The characters of a row hold no NUL, so the terminator behind them ends the text. */
    static lemma TextOfAscii(b: seq<Octet>, row: seq<Octet>)
      requires |row| < |b| && b[..|row|] == Ascii(row) && b[|row|] == NUL
      ensures IsCString(b, 0, |row|)
    {
      assert forall k :: 0 <= k < |row| ==> b[k] == b[..|row|][k];
    }

    /** println of a C string. */
    method Println(text: array<Octet>, ghost end: nat)
      requires Valid() && text != buffer && IsCString(text[..], 0, end)
      modifies this`index, this`chunks, this`accepted, buffer
      ensures Valid() && accepted == old(accepted) + Kept(On(), old(text[..end]) + ['\r'] + ['\n'])
    {
      var e := CStringEnd(text, 0, end);
      var t := text[..e];
      ghost var on, before := On(), accepted;
      Print(t);
      Print(['\r'] + ['\n']);
      LineEnd(on, before, t);
    }

    static lemma LineEnd(on: bool, before: seq<Octet>, t: seq<Octet>)
      ensures before + Kept(on, t) + Kept(on, ['\r'] + ['\n']) == before + Kept(on, t + ['\r'] + ['\n'])
    {
      assert t + (['\r'] + ['\n']) == t + ['\r'] + ['\n'];
      Extend(on, before, t, ['\r'] + ['\n']);
    }

    /** Four cells and the space behind them. */
    method DumpGroup(bytes: seq<Octet>, at: nat, left: nat, asciiBuffer: array<Octet>, ghost row: seq<Octet>,
                     i: nat, from: nat)
      returns (n: nat)
      requires Valid() && asciiBuffer != buffer
      requires at + left <= |bytes| && row == bytes[at..at + Min(ROW, left)]
      requires i + 4 <= ROW && from == Min(i, |row|) && Typed(asciiBuffer, row, from)
      modifies this`index, this`chunks, this`accepted, buffer, asciiBuffer
      ensures Valid() && n == Min(i + 4, |row|) && Typed(asciiBuffer, row, n)
      ensures accepted == old(accepted) + Kept(On(), Group(row, i))
    {
      n := from;
      ghost var on, before := On(), accepted;
      for j := 0 to 4
        invariant Valid() && n == Min(i + j, |row|) && Typed(asciiBuffer, row, n)
        invariant On() == on && accepted == before + Kept(on, Part(row, i, j))
      {
        n := DumpCell(bytes, at, left, asciiBuffer, row, i + j, n);
        NextCell(on, before, row, i, j);
      }
      Print([' ']);
      Extend(on, before, Part(row, i, 4), [' ']);
    }

    static lemma NextGroup(on: bool, before: seq<Octet>, row: seq<Octet>, m: nat)
      ensures before + Kept(on, Groups(row, m)) + Kept(on, Group(row, 4 * m)) == before + Kept(on, Groups(row, m + 1))
    {
      Extend(on, before, Groups(row, m), Group(row, 4 * m));
    }

    static lemma NextCell(on: bool, before: seq<Octet>, row: seq<Octet>, i: nat, j: nat)
      ensures before + Kept(on, Part(row, i, j)) + Kept(on, Cell(row, i + j)) == before + Kept(on, Part(row, i, j + 1))
    {
      Extend(on, before, Part(row, i, j), Cell(row, i + j));
    }

    static lemma Extend(on: bool, before: seq<Octet>, done: seq<Octet>, more: seq<Octet>)
      ensures before + Kept(on, done) + Kept(on, more) == before + Kept(on, done + more)
    {
    }

    /** One cell: a byte in hex, with its character kept for later, or three spaces. */
    method DumpCell(bytes: seq<Octet>, at: nat, left: nat, asciiBuffer: array<Octet>, ghost row: seq<Octet>,
                    k: nat, from: nat)
      returns (n: nat)
      requires Valid() && asciiBuffer != buffer
      requires at + left <= |bytes| && row == bytes[at..at + Min(ROW, left)]
      requires k < ROW && from == Min(k, |row|) && Typed(asciiBuffer, row, from)
      modifies this`index, this`chunks, this`accepted, buffer, asciiBuffer
      ensures Valid() && n == Min(k + 1, |row|) && Typed(asciiBuffer, row, n)
      ensures accepted == old(accepted) + Kept(On(), Cell(row, k))
    {
      n := from;
      if k < left {
        var c := bytes[at + n];
        Print([HexDigit(c as int / 16), HexDigit(c as int % 16), ' ']);
        asciiBuffer[n] := if c as int < 0x20 then '.' else if c as int > 0x7f then '.' else c;
        n := n + 1;
        assert asciiBuffer[..n] == asciiBuffer[..n - 1] + [Ascii(row)[n - 1]];
      } else {
        Print([' ', ' ', ' ']);
      }
    }
  }
}
