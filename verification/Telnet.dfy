/**
  The telnet reader (telnet_server.cpp): option negotiation is filtered out of
  the bytes as they arrive, lines are assembled, and the line PASSTHROUGH
  switches the forwarding of the other lines to the generator.
 */
module Telnet {
  import opened Octets
  import opened Tokenizer

  const IAC: Octet := 0xFF as char
  const LINE_LENGTH: nat := 256

  // ---------- the reader, byte by byte ----------

  /** What a call of loop() leaves unread and unfinished, and the lines it delivers. */
  datatype Reading = Reading(unread: seq<Octet>, pending: seq<Octet>, lines: seq<seq<Octet>>)

  function Appended(pending: seq<Octet>, c: Octet): seq<Octet> {
    if |pending| < LINE_LENGTH then pending + [c] else pending
  }

  /** One call on the bytes at hand: an IAC whose sequence is not complete ends it, and is lost. */
  function Drain(q: seq<Octet>, pending: seq<Octet>): Reading
    decreases |q|
  {
    if q == [] then Reading([], pending, [])
    else if q[0] == IAC then
      if |q| < 3 then Reading(q[1..], pending, []) else Drain(q[3..], pending)
    else if q[0] == '\r' then Drain(q[1..], pending)
    else if q[0] == '\n' then
      var r := Drain(q[1..], []);
      r.(lines := [pending] + r.lines)
    else Drain(q[1..], Appended(pending, q[0]))
  }

  /** A call after another, on what was left and what has arrived since. */
  function DrainMore(r: Reading, arrived: seq<Octet>): Reading {
    var s := Drain(r.unread + arrived, r.pending);
    s.(lines := r.lines + s.lines)
  }

  /** The batches of arrivals, one call for each. */
  function DrainAll(batches: seq<seq<Octet>>): Reading {
    if batches == [] then Reading([], [], [])
    else DrainMore(DrainAll(batches[..|batches| - 1]), batches[|batches| - 1])
  }

  // ---------- the reader, in one piece ----------

  /** No IAC sequence (TELNET COMMAND STRUCTURE of RFC 854) is cut by the end of s. */
  predicate EndsOutside(s: seq<Octet>)
    decreases |s|
  {
    s == [] || if s[0] == IAC then |s| >= 3 && EndsOutside(s[3..]) else EndsOutside(s[1..])
  }

  /** s without its IAC sequences and carriage returns. */
  function Text(s: seq<Octet>): seq<Octet>
    decreases |s|
  {
    if s == [] then []
    else if s[0] == IAC then Text(s[Min(3, |s|)..])
    else if s[0] == '\r' then Text(s[1..])
    else [s[0]] + Text(s[1..])
  }

  /** What is text, byte by byte: IAC is 255 and takes the two bytes behind it along, and CR is 13. */
  lemma TextLaws(c: Octet, x: Octet, y: Octet, s: seq<Octet>)
    ensures c as int != 255 && c as int != 13 ==> Text([c] + s) == [c] + Text(s)
    ensures c as int == 13 ==> Text([c] + s) == Text(s)
    ensures c as int == 255 ==> Text([c, x, y] + s) == Text(s)
    ensures c as int != 255 ==> (EndsOutside([c] + s) <==> EndsOutside(s))
    ensures c as int == 255 ==> (EndsOutside([c, x, y] + s) <==> EndsOutside(s))
    ensures c as int == 255 ==> !EndsOutside([c]) && !EndsOutside([c, x])
    ensures EndsOutside([]) && Text([]) == []
  {
    assert ([c] + s)[1..] == s && ([c, x, y] + s)[3..] == s;
  }

  function Cut(s: string): string {
    s[..Min(LINE_LENGTH, |s|)]
  }

  function CutAll(ss: seq<string>): seq<string> {
    if ss == [] then [] else [Cut(ss[0])] + CutAll(ss[1..])
  }

  /** The lines of a whole stream, each cut to its first 256 bytes; the last one is unfinished. */
  function WholeLines(s: seq<Octet>): (ls: seq<string>)
    ensures |ls| > 0
  {
    var fs := Fields(Text(s), '\n');
    [Cut(fs[0])] + CutAll(fs[1..])
  }

  lemma {:induction false} CutAt(ss: seq<string>, i: nat)
    requires i < |ss|
    ensures |CutAll(ss)| == |ss| && CutAll(ss)[i] == ss[i][..Min(256, |ss[i]|)]
  {
    if i > 0 {
      CutAt(ss[1..], i - 1);
    } else if |ss| > 1 {
      CutAt(ss[1..], 0);
    }
  }

  /** Line i is the first 256 characters at most of the i-th field of the text between the newlines. */
  lemma LinesAre(s: seq<Octet>, i: nat)
    requires i < |Fields(Text(s), '\n')|
    ensures |WholeLines(s)| == |Fields(Text(s), '\n')|
    ensures WholeLines(s)[i] == Fields(Text(s), '\n')[i][..Min(256, |Fields(Text(s), '\n')[i]|)]
  {
    var fs := Fields(Text(s), '\n');
    assert WholeLines(s) == CutAll(fs);
    CutAt(fs, i);
  }

  // ---------- they agree ----------

  /** The first field continues what is pending. */
  function Joined(pending: string, fs: seq<string>): (ls: seq<string>)
    requires |fs| > 0
    ensures |ls| > 0
  {
    [Cut(pending + fs[0])] + CutAll(fs[1..])
  }

  lemma CutAppended(pending: seq<Octet>, c: Octet, rest: string)
    requires |pending| <= LINE_LENGTH
    ensures |Appended(pending, c)| <= LINE_LENGTH
    ensures Cut(Appended(pending, c) + rest) == Cut(pending + ([c] + rest))
  {
    if |pending| < LINE_LENGTH {
      assert pending + [c] + rest == pending + ([c] + rest);
    } else {
      assert Cut(pending + rest) == pending == Cut(pending + ([c] + rest));
    }
  }

  /** A stream that ends outside a sequence is read in one call exactly as in one piece. */
  lemma {:induction false} DrainIsWhole(q: seq<Octet>, pending: seq<Octet>)
    requires EndsOutside(q) && |pending| <= LINE_LENGTH
    ensures var r := Drain(q, pending);
            && r.unread == [] && |r.pending| <= LINE_LENGTH
            && r.lines + [r.pending] == Joined(pending, Fields(Text(q), '\n'))
    decreases |q|
  {
    if q == [] {
      assert pending + [] == pending && Cut(pending) == pending;
    } else if q[0] == IAC {
      DrainIsWhole(q[3..], pending);
    } else if q[0] == '\r' {
      DrainIsWhole(q[1..], pending);
    } else if q[0] == '\n' {
      var fs := Fields(Text(q[1..]), '\n');
      DrainIsWhole(q[1..], []);
      FieldsStep(q);
      assert [] + fs[0] == fs[0] && pending + [] == pending == Cut(pending);
      assert Joined([], fs) == CutAll(fs);
    } else {
      DrainIsWhole(q[1..], Appended(pending, q[0]));
      FieldsStep(q);
      var fs := Fields(Text(q[1..]), '\n');
      CutAppended(pending, q[0], fs[0]);
    }
  }

  lemma FieldsStep(q: seq<Octet>)
    requires q != [] && q[0] != IAC && q[0] != '\r'
    ensures var fs := Fields(Text(q[1..]), '\n');
            Fields(Text(q), '\n') == if q[0] == '\n' then [[]] + fs else [[q[0]] + fs[0]] + fs[1..]
  {
    assert Text(q)[1..] == Text(q[1..]);
  }

  lemma {:induction false} DrainConcat(a: seq<Octet>, b: seq<Octet>, pending: seq<Octet>)
    requires EndsOutside(a)
    ensures Drain(a + b, pending) == DrainMore(Drain(a, pending), b)
    decreases |a|
  {
    if a == [] {
      assert a + b == b == [] + b;
    } else if a[0] == IAC {
      DrainConcat(a[3..], b, pending);
      assert (a + b)[3..] == a[3..] + b;
    } else {
      assert (a + b)[1..] == a[1..] + b;
      DrainConcat(a[1..], b, if a[0] == '\r' then pending else if a[0] == '\n' then [] else Appended(pending, a[0]));
      LineFirst([pending], Drain(a[1..], []), b);
    }
  }

  lemma LineFirst(lines: seq<seq<Octet>>, r: Reading, b: seq<Octet>)
    ensures DrainMore(r.(lines := lines + r.lines), b) == (var s := DrainMore(r, b); s.(lines := lines + s.lines))
  {
    var more := Drain(r.unread + b, r.pending).lines;
    assert lines + r.lines + more == lines + (r.lines + more);
  }

  /** Three newlines, which an IAC sequence cut before them makes different. */
  const NEWLINES: seq<Octet> := ['\n', '\n', '\n']

  lemma {:induction false} NewlinesDrain(pending: seq<Octet>)
    ensures |Drain(NEWLINES, pending).lines| == 3
    ensures |Drain(NEWLINES[1..], pending).lines| == 2
    ensures |Drain(NEWLINES[2..], pending).lines| == 1
  {
    assert NEWLINES[2..][1..] == [];
    assert NEWLINES[1..][1..] == NEWLINES[2..];
    assert |Drain(NEWLINES[2..], []).lines| == 1;
    assert |Drain(NEWLINES[1..], []).lines| == 2;
  }

  lemma {:induction false} CutShows(a: seq<Octet>, pending: seq<Octet>)
    requires !EndsOutside(a)
    ensures |Drain(a + NEWLINES, pending).lines| != |DrainMore(Drain(a, pending), NEWLINES).lines|
    decreases |a|
  {
    var s := a + NEWLINES;
    if a[0] == IAC && |a| >= 3 {
      CutShows(a[3..], pending);
      assert s[3..] == a[3..] + NEWLINES;
    } else if a[0] == IAC {
      NewlinesDrain(pending);
      NewlinesDrain([]);
      if |a| == 1 {
        assert s[3..] == NEWLINES[2..];
        assert a[1..] + NEWLINES == NEWLINES;
      } else {
        assert s[3..] == NEWLINES[1..];
        var q := a[1..] + NEWLINES;
        assert q[1..] == NEWLINES && q[3..] == NEWLINES[2..];
        NewlinesDrain(Appended(pending, q[0]));
      }
    } else {
      assert s[1..] == a[1..] + NEWLINES;
      CutShows(a[1..], if a[0] == '\r' then pending else if a[0] == '\n' then [] else Appended(pending, a[0]));
    }
  }

  /** Ending a batch at a place never changes the lines delivered exactly when it cuts no IAC sequence there. */
  lemma CutHarmless(a: seq<Octet>, pending: seq<Octet>)
    ensures EndsOutside(a) <==> forall b :: Drain(a + b, pending).lines == DrainMore(Drain(a, pending), b).lines
  {
    if EndsOutside(a) {
      forall b ensures Drain(a + b, pending).lines == DrainMore(Drain(a, pending), b).lines {
        DrainConcat(a, b, pending);
      }
    } else {
      CutShows(a, pending);
    }
  }

  function Concat(batches: seq<seq<Octet>>): seq<Octet> {
    if batches == [] then [] else Concat(batches[..|batches| - 1]) + batches[|batches| - 1]
  }

  lemma {:induction false} OutsideConcat(a: seq<Octet>, b: seq<Octet>)
    requires EndsOutside(a)
    ensures EndsOutside(a + b) <==> EndsOutside(b)
    decreases |a|
  {
    if a == [] {
      assert a + b == b;
    } else if a[0] == IAC {
      OutsideConcat(a[3..], b);
      assert (a + b)[3..] == a[3..] + b;
    } else {
      OutsideConcat(a[1..], b);
      assert (a + b)[1..] == a[1..] + b;
    }
  }

  lemma {:induction false} BatchesDrain(batches: seq<seq<Octet>>)
    requires forall b :: b in batches ==> EndsOutside(b)
    ensures EndsOutside(Concat(batches))
    ensures DrainAll(batches) == Drain(Concat(batches), [])
  {
    if batches != [] {
      var front, last := batches[..|batches| - 1], batches[|batches| - 1];
      BatchesDrain(front);
      OutsideConcat(Concat(front), last);
      DrainConcat(Concat(front), last, []);
    }
  }

  /**
    However a stream arrives, as long as no batch cuts an IAC sequence: the lines
    and the unfinished line are those of the stream in one piece.
   */
  lemma IncrementalIsWhole(batches: seq<seq<Octet>>)
    requires forall b :: b in batches ==> EndsOutside(b)
    ensures var r := DrainAll(batches);
            r.unread == [] && r.lines + [r.pending] == WholeLines(Concat(batches))
  {
    BatchesDrain(batches);
    DrainIsWhole(Concat(batches), []);
    var fs := Fields(Text(Concat(batches)), '\n');
    assert [] + fs[0] == fs[0];
  }

  // ---------- passthrough ----------

  predicate IsSpace(c: char) {
    c == ' ' || '\t' <= c <= '\r'
  }

  /** String::trim and String::toUpperCase */
  function TrimLeft(s: string): string {
    if s != [] && IsSpace(s[0]) then TrimLeft(s[1..]) else s
  }

  function TrimRight(s: string): string {
    if s != [] && IsSpace(s[|s| - 1]) then TrimRight(s[..|s| - 1]) else s
  }

  function Upper(s: string): string {
    if s == [] then []
    else [if 'a' <= s[0] <= 'z' then (s[0] as int - 32) as char else s[0]] + Upper(s[1..])
  }

  /** The comparison with a C string stops at a NUL. */
  predicate IsToggle(line: string) {
    CText(Upper(TrimRight(TrimLeft(line)))) == "PASSTHROUGH"
  }

  // ---------- what toggles, from the characters of the line ----------

  ghost predicate IsWhite(c: char) {
    c == ' ' || 9 <= c as int <= 13
  }

  /** w is PASSTHROUGH, each letter in either case. */
  ghost predicate Spells(w: string) {
    |w| == 11 && forall k :: 0 <= k < 11 ==> w[k] == "PASSTHROUGH"[k] || w[k] == "passthrough"[k]
  }

  /**
    White space up to a, the word, and white space up to the end; or a NUL right
    behind the word, where the comparison stops.
   */
  ghost predicate StandsAt(line: string, a: nat) {
    && a + 11 <= |line| && Spells(line[a..a + 11]) && (forall i :: 0 <= i < a ==> IsWhite(line[i]))
    && ((forall i :: a + 11 <= i < |line| ==> IsWhite(line[i])) || (a + 11 < |line| && line[a + 11] == '\0'))
  }

  ghost predicate ReadsPassthrough(line: string) {
    exists a: nat :: StandsAt(line, a)
  }

  lemma {:induction false} LeftTrimmed(s: string) returns (a: nat)
    ensures a <= |s| && TrimLeft(s) == s[a..]
    ensures (forall i :: 0 <= i < a ==> IsWhite(s[i])) && (a < |s| ==> !IsWhite(s[a]))
  {
    a := 0;
    if s != [] && IsSpace(s[0]) {
      var b := LeftTrimmed(s[1..]);
      a := b + 1;
      assert forall i :: 0 < i < a ==> s[i] == s[1..][i - 1];
    }
  }

  lemma {:induction false} RightTrimmed(s: string) returns (b: nat)
    ensures b <= |s| && TrimRight(s) == s[..b]
    ensures (forall i :: b <= i < |s| ==> IsWhite(s[i])) && (b > 0 ==> !IsWhite(s[b - 1]))
  {
    b := |s|;
    if s != [] && IsSpace(s[|s| - 1]) {
      b := RightTrimmed(s[..|s| - 1]);
    }
  }

  lemma {:induction false} UpperAt(s: string, i: nat)
    requires i < |s|
    ensures |Upper(s)| == |s|
    ensures Upper(s)[i] == if 97 <= s[i] as int <= 122 then (s[i] as int - 32) as char else s[i]
  {
    if i > 0 {
      UpperAt(s[1..], i - 1);
    } else if |s| > 1 {
      UpperAt(s[1..], 0);
    }
  }

  /** The letters that are upper-cased to a letter of the word, and to NUL. */
  lemma UpperLetter(s: string, i: nat, k: nat)
    requires i < |s| && k < 11
    ensures |Upper(s)| == |s|
    ensures Upper(s)[i] == "PASSTHROUGH"[k] <==> s[i] == "PASSTHROUGH"[k] || s[i] == "passthrough"[k]
    ensures Upper(s)[i] == '\0' <==> s[i] == '\0'
  {
    UpperAt(s, i);
  }

  lemma {:induction false} UpperLength(s: string)
    ensures |Upper(s)| == |s|
  {
    if s != [] {
      UpperLength(s[1..]);
    }
  }

  lemma WordUpper(t: string)
    ensures |Upper(t)| == |t|
    ensures |t| >= 11 ==> (Upper(t)[..11] == "PASSTHROUGH" <==> Spells(t[..11]))
    ensures |t| > 11 ==> (Upper(t)[11] == '\0' <==> t[11] == '\0')
  {
    UpperLength(t);
    if |t| >= 11 {
      var u, w := Upper(t)[..11], t[..11];
      forall k | 0 <= k < 11
        ensures u[k] == "PASSTHROUGH"[k] <==> w[k] == "PASSTHROUGH"[k] || w[k] == "passthrough"[k]
      {
        UpperLetter(t, k, k);
      }
      SameEleven(u);
    }
    if |t| > 11 {
      UpperLetter(t, 11, 0);
    }
  }

  lemma SameEleven(u: string)
    requires |u| == 11
    ensures u == "PASSTHROUGH" <==> forall k :: 0 <= k < 11 ==> u[k] == "PASSTHROUGH"[k]
  {
  }

  /** The comparison with the C string, once the text is upper-cased. */
  lemma ComparedText(u: string)
    ensures CText(u) == "PASSTHROUGH" <==>
            |u| >= 11 && u[..11] == "PASSTHROUGH" && (|u| > 11 ==> u[11] == '\0')
  {
    var k := Span(u, NUL, 0);
    if |u| >= 11 && u[..11] == "PASSTHROUGH" {
      assert forall i :: 0 <= i < 11 ==> u[i] == u[..11][i] != NUL;
    }
    if CText(u) == "PASSTHROUGH" {
      assert |u[..k]| == 11;
    }
  }

  lemma TrimmedReads(t: string)
    ensures CText(Upper(t)) == "PASSTHROUGH" <==> |t| >= 11 && Spells(t[..11]) && (|t| > 11 ==> t[11] == '\0')
  {
    WordUpper(t);
    ComparedText(Upper(t));
  }

  lemma SpelledNotWhite(line: string, a: nat, i: nat)
    requires a + 11 <= |line| && Spells(line[a..a + 11]) && a <= i < a + 11
    ensures !IsWhite(line[i])
  {
    assert line[i] == line[a..a + 11][i - a];
  }

  /** line[a..e] is the line without the white space around it. */
  ghost predicate IsTrimmed(line: string, a: nat, e: nat) {
    && a <= e <= |line|
    && (forall i :: 0 <= i < a ==> IsWhite(line[i])) && (forall i :: e <= i < |line| ==> IsWhite(line[i]))
    && (a < e ==> !IsWhite(line[a]) && !IsWhite(line[e - 1]))
  }

  lemma Trimmed(line: string) returns (a: nat, e: nat)
    ensures IsTrimmed(line, a, e) && TrimRight(TrimLeft(line)) == line[a..e]
  {
    a := LeftTrimmed(line);
    var rest := line[a..];
    var b := RightTrimmed(rest);
    e := a + b;
    assert rest[..b] == line[a..e];
    assert forall i :: e <= i < |line| ==> line[i] == rest[i - a];
    if b > 0 {
      assert line[e - 1] == rest[b - 1];
    }
    if b > 0 && a < |line| {
      assert !IsWhite(line[a]);
    }
  }

  /** A trimmed text of the word, or of the word and a NUL, is one that stands in the line. */
  lemma TrimmedStands(line: string, a: nat, e: nat)
    requires IsTrimmed(line, a, e)
    ensures var t := line[a..e];
            |t| >= 11 && Spells(t[..11]) && (|t| > 11 ==> t[11] == '\0') <==> StandsAt(line, a)
  {
    var t := line[a..e];
    if |t| >= 11 {
      assert t[..11] == line[a..a + 11];
    }
    if |t| > 11 {
      assert t[11] == line[a + 11];
    }
    if StandsAt(line, a) {
      SpelledNotWhite(line, a, a);
      SpelledNotWhite(line, a, a + 10);
    }
  }

  /** A line toggles exactly when it reads PASSTHROUGH. */
  lemma ToggleExact(line: string)
    ensures IsToggle(line) <==> ReadsPassthrough(line)
  {
    var a, e := Trimmed(line);
    TrimmedReads(line[a..e]);
    TrimmedStands(line, a, e);
    if ReadsPassthrough(line) {
      var a' :| StandsAt(line, a');
      SpelledNotWhite(line, a', a');
      assert a == a';
    }
  }

  function Toggles(lines: seq<seq<Octet>>): nat {
    if lines == [] then 0
    else Toggles(lines[..|lines| - 1]) + if IsToggle(lines[|lines| - 1]) then 1 else 0
  }

  /** The text for the generator: each other line that comes after an odd number of toggles, and one LF. */
  function Forwarded(lines: seq<seq<Octet>>): seq<Octet> {
    if lines == [] then []
    else
      var front, line := lines[..|lines| - 1], lines[|lines| - 1];
      Forwarded(front) + if !IsToggle(line) && Toggles(front) % 2 == 1 then line + ['\n'] else []
  }

  class TelnetServer {
    var unread: seq<Octet>
    var lineBuffer: seq<Octet>
    var passThrough: bool
    /** What AWGSerial was given. */
    var toGenerator: seq<Octet>
    /** The lines handed to onTelnetInput, over all connections. */
    ghost var lines: seq<seq<Octet>>

    ghost predicate Valid()
      reads this
    {
      (passThrough <==> Toggles(lines) % 2 == 1) && toGenerator == Forwarded(lines)
    }

    constructor ()
      ensures Valid() && lines == [] && lineBuffer == [] && unread == []
    {
      unread, lineBuffer, passThrough, toGenerator, lines := [], [], false, [], [];
    }

    /** A new client: its stream and its line start empty, passthrough stays. */
    method Connect()
      requires Valid()
      modifies this`unread, this`lineBuffer
      ensures Valid() && unread == [] && lineBuffer == []
    {
      unread, lineBuffer := [], [];
    }

    /** The reading part of loop(), with what has arrived since the last call. */
    method Loop(arrived: seq<Octet>)
      requires Valid()
      modifies this
      ensures Valid()
      ensures var r := DrainMore(Reading(old(unread), old(lineBuffer), old(lines)), arrived);
              unread == r.unread && lineBuffer == r.pending && lines == r.lines
    {
      unread := unread + arrived;
      ghost var before, goal := lines, Drain(unread, lineBuffer);
      while unread != []
        invariant Valid()
        invariant goal.unread == Drain(unread, lineBuffer).unread
        invariant goal.pending == Drain(unread, lineBuffer).pending
        invariant before + goal.lines == lines + Drain(unread, lineBuffer).lines
        decreases |unread|
      {
        var b := unread[0];
        ghost var q := unread;
        unread := unread[1..];
        if b == IAC {
          if |unread| < 2 {
            return;
          }
          assert unread[2..] == q[3..];
          unread := unread[2..];
        } else if b == '\r' {
        } else if b == '\n' {
          var line := lineBuffer;
          lineBuffer := [];
          assert lines + ([line] + Drain(unread, []).lines) == lines + [line] + Drain(unread, []).lines;
          OnTelnetInput(line);
        } else if |lineBuffer| < LINE_LENGTH {
          lineBuffer := lineBuffer + [b];
        }
      }
    }

    method OnTelnetInput(input: seq<Octet>)
      requires Valid()
      modifies this`passThrough, this`toGenerator, this`lines
      ensures Valid() && lines == old(lines) + [input]
      ensures passThrough != old(passThrough) <==> ReadsPassthrough(input)
      ensures toGenerator == old(toGenerator)
                             + if old(passThrough) && !ReadsPassthrough(input) then input + ['\n'] else []
    {
      ToggleExact(input);
      assert (lines + [input])[..|lines|] == lines;
      lines := lines + [input];
      if CText(Upper(TrimRight(TrimLeft(input)))) == "PASSTHROUGH" {
        passThrough := !passThrough;
      } else if passThrough {
        toGenerator := toGenerator + input;
        toGenerator := toGenerator + ['\n'];
      }
    }
  }
}
