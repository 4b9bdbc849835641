/**
  The SCPI tables (scpi.h) and what a command line means: the set calls it
  issues, the channel it selects and the kind of read it prepares.
 */
module Scpi {
  import opened Octets
  import opened Tokenizer
  import opened Numbers

  const INITIATORS: seq<string> := ["IDN-SGLT-PRI?", "C"]
  const ID_REQUEST := 0
  const CHANNEL := 1

  const COMMANDS: seq<string> := ["OUTP", "BSWV?", "BSWV"]
  const SET_OUTPUT := 0
  const GET_PARAMETERS := 1
  const SET_PARAMETERS := 2

  const PARAMETERS: seq<string> := ["OFF", "ON", "WVTP", "FRQ", "AMP", "OFST", "PHSE"]
  const OUTPUT_OFF := 0
  const OUTPUT_ON := 1
  const WAVE := 2
  const FREQUENCY := 3
  const AMPLITUDE := 4
  const OFFSET := 5
  const PHASE := 6
  const PARAMETER_COUNT := 7

  /** siglent::Sine */
  const SINE := 0.0

  // ---------- table look-up ----------

  /** The first entry of list that text starts with, or -1. */
  function MatchId(text: string, list: seq<string>): (id: int)
    ensures -1 <= id < |list|
    ensures id >= 0 ==> list[id] <= text
    ensures forall j :: 0 <= j < (if id < 0 then |list| else id) ==> !(list[j] <= text)
  {
    MatchFrom(text, list, 0)
  }

  function MatchFrom(text: string, list: seq<string>, i: nat): (id: int)
    requires i <= |list|
    ensures id == -1 || i <= id < |list|
    ensures id >= 0 ==> list[id] <= text
    ensures forall j :: i <= j < (if id < 0 then |list| else id) ==> !(list[j] <= text)
    decreases |list| - i
  {
    if i == |list| then -1
    else if list[i] <= text then i
    else MatchFrom(text, list, i + 1)
  }

  /** No entry hides a longer entry that comes after it. */
  ghost predicate PrefixSafe(list: seq<string>) {
    forall i, j :: 0 <= i < j < |list| ==> !(list[i] <= list[j])
  }

  ghost predicate FirstIsLongest(text: string, list: seq<string>) {
    forall j :: 0 <= j < |list| && list[j] <= text ==>
                  MatchId(text, list) >= 0 && |list[j]| <= |list[MatchId(text, list)]|
  }

  lemma PrefixesNest(a: string, b: string, text: string)
    requires a <= text && b <= text
    ensures a <= b || b <= a
  {
    if |a| <= |b| {
      assert a == b[..|a|];
    } else {
      assert b == a[..|b|];
    }
  }

  /** In a table without repetitions the first match is the longest for every text just when no entry hides another. */
  lemma FirstMatchIsLongest(list: seq<string>)
    requires forall i, j :: 0 <= i < j < |list| ==> list[i] != list[j]
    ensures PrefixSafe(list) <==> forall text :: FirstIsLongest(text, list)
  {
    if PrefixSafe(list) {
      forall text ensures FirstIsLongest(text, list) {
        forall j | 0 <= j < |list| && list[j] <= text
          ensures MatchId(text, list) >= 0 && |list[j]| <= |list[MatchId(text, list)]|
        {
          PrefixesNest(list[MatchId(text, list)], list[j], text);
        }
      }
    } else {
      var i, j :| 0 <= i < j < |list| && list[i] <= list[j];
      assert !FirstIsLongest(list[j], list);
    }
  }

  /** The three tables are safe, although BSWV is a prefix of BSWV?. */
  lemma TablesAreSafe()
    ensures PrefixSafe(INITIATORS) && PrefixSafe(COMMANDS) && PrefixSafe(PARAMETERS)
  {
    forall i, j | 0 <= i < j < |COMMANDS| ensures !(COMMANDS[i] <= COMMANDS[j]) {
      assert |COMMANDS[i]| > |COMMANDS[j]| || COMMANDS[i][0] != COMMANDS[j][0];
    }
    forall i, j | 0 <= i < j < |PARAMETERS| ensures !(PARAMETERS[i] <= PARAMETERS[j]) {
      assert PARAMETERS[i][0] != PARAMETERS[j][0] || PARAMETERS[i][1] != PARAMETERS[j][1]
             || PARAMETERS[i][2] != PARAMETERS[j][2];
    }
  }

  /** Every table finds the longest entry; a text that starts with BSWV? is never taken as BSWV. */
  lemma TablesFindLongest(text: string)
    ensures FirstIsLongest(text, INITIATORS) && FirstIsLongest(text, COMMANDS) && FirstIsLongest(text, PARAMETERS)
    ensures "BSWV?" <= text <==> MatchId(text, COMMANDS) == GET_PARAMETERS
  {
    TablesAreSafe();
    FirstMatchIsLongest(INITIATORS);
    FirstMatchIsLongest(COMMANDS);
    FirstMatchIsLongest(PARAMETERS);
    assert COMMANDS[1] == "BSWV?";
  }

  /** An entry of a safe table is found at its own place. */
  lemma EntryMatches(list: seq<string>, i: nat)
    requires PrefixSafe(list) && i < |list|
    ensures MatchId(list[i], list) == i
  {
    var id := MatchId(list[i], list);
    assert list[i] <= list[i];
    assert id <= i && list[id] <= list[i];
  }

  /** No entry holds c. C strings hold no NUL, and tokens hold no delimiter. */
  ghost predicate Free(list: seq<string>, c: char) {
    forall j, i :: 0 <= j < |list| && 0 <= i < |list[j]| ==> list[j][i] != c
  }

  lemma TablesAreFree(c: char)
    requires c == NUL || c == ',' || c == ';'
    ensures Free(INITIATORS, c) && Free(COMMANDS, c) && Free(PARAMETERS, c)
  {
  }

  // ---------- the meaning of a line ----------

  /** One call of AWG_Server::set. */
  datatype SetCall = SetCall(channel: Word, id: nat, value: real)

  datatype ReadType = NoRead | Identification | Parameters

  datatype Outcome = Outcome(channel: Word, readType: ReadType, calls: seq<SetCall>)

  /** sscanf leaves its target as it was when the text holds no number; None is a variable not yet assigned. */
  function Reading(token: string, value: Option<real>): Option<real> {
    var r := ScanReal(token);
    if r.Some? then r else value
  }

  function ParamId(toks: seq<string>): int
    requires toks != []
  {
    MatchId(toks[0], PARAMETERS)
  }

  /** The number of tokens the parameter at the front takes: a name may be followed by its value. */
  function Taken(toks: seq<string>): (n: nat)
    requires toks != []
    ensures 0 < n <= |toks|
  {
    if ParamId(toks) <= OUTPUT_ON then 1 else Min(2, |toks|)
  }

  /** The value once the parameter at the front is read: ON and OFF stand for themselves, every wave is a sine. */
  function NewValue(toks: seq<string>, value: Option<real>): Option<real>
    requires toks != []
  {
    var id := ParamId(toks);
    if id < 0 then value
    else if id <= OUTPUT_ON then Some(id as real)
    else if id == WAVE then Some(SINE)
    else if |toks| > 1 then Reading(toks[1], value)
    else value
  }

  /** The name-value pairs never run out of tokens and never use an unassigned value. */
  predicate ParamsDefined(toks: seq<string>, value: Option<real>)
    decreases |toks|
  {
    toks == [] ||
    (&& (ParamId(toks) > WAVE ==> |toks| > 1 && NewValue(toks, value).Some?)
     && ParamsDefined(toks[Taken(toks)..], NewValue(toks, value)))
  }

  /** The calls for a list of parameter tokens; unknown names are passed over. */
  function ParamCalls(ch: Word, toks: seq<string>, value: Option<real>): seq<SetCall>
    requires ParamsDefined(toks, value)
    decreases |toks|
  {
    if toks == [] then []
    else
      var v := NewValue(toks, value);
      (if ParamId(toks) < 0 then [] else [SetCall(ch, ParamId(toks), v.value)])
      + ParamCalls(ch, toks[Taken(toks)..], v)
  }

  /** A command line: the command up to the first space, then parameters between commas. */
  function CommandId(line: string): int {
    MatchId(Head(line, ' '), COMMANDS)
  }

  function Params(line: string): seq<string> {
    Tokens(Tail(line, ' '), ',')
  }

  predicate SetsParameters(line: string) {
    CommandId(line) == SET_OUTPUT || CommandId(line) == SET_PARAMETERS
  }

  predicate LineDefined(line: string) {
    HasToken(line, ' ') && (SetsParameters(line) ==> ParamsDefined(Params(line), None))
  }

  predicate LinesDefined(lines: seq<string>) {
    lines == [] || (LineDefined(lines[0]) && LinesDefined(lines[1..]))
  }

  function LineCalls(ch: Word, line: string): seq<SetCall>
    requires LineDefined(line)
  {
    if SetsParameters(line) then ParamCalls(ch, Params(line), None) else []
  }

  function LinesCalls(ch: Word, lines: seq<string>): seq<SetCall>
    requires LinesDefined(lines)
  {
    if lines == [] then [] else LineCalls(ch, lines[0]) + LinesCalls(ch, lines[1..])
  }

  predicate AnyQuery(lines: seq<string>) {
    lines != [] && (CommandId(lines[0]) == GET_PARAMETERS || AnyQuery(lines[1..]))
  }

  /** The channel after "C": 0 when no number follows; a negative number wraps. */
  function ChannelOf(initiator: string): Word
    requires initiator != []
  {
    match ScanInt(initiator[1..])
    case None => 0
    case Some(n) => n % 0x1_0000_0000
  }

  function InitiatorId(text: string): int {
    MatchId(Head(text, ':'), INITIATORS)
  }

  function Lines(text: string): seq<string> {
    Tokens(Tail(text, ':'), ';')
  }

  /** The lines on which the parser never follows a NULL pointer. */
  predicate TextDefined(text: string) {
    HasToken(text, ':') && (InitiatorId(text) == CHANNEL ==> LinesDefined(Lines(text)))
  }

  /** What a line means: split at the colon, then at semicolons, spaces and commas. */
  function Parse(text: string): Outcome
    requires TextDefined(text)
  {
    var id := InitiatorId(text);
    if id == ID_REQUEST then Outcome(0, Identification, [])
    else if id == CHANNEL then
      var ch := ChannelOf(Head(text, ':'));
      Outcome(ch, if AnyQuery(Lines(text)) then Parameters else NoRead, LinesCalls(ch, Lines(text)))
    else Outcome(0, NoRead, [])
  }

  // ---------- what every line keeps ----------

  ghost predicate InRange(ch: Word, calls: seq<SetCall>) {
    forall c :: c in calls ==>
                  && c.channel == ch && c.id < PARAMETER_COUNT
                  && (c.id <= OUTPUT_ON ==> c.value == c.id as real)
                  && (c.id == WAVE ==> c.value == SINE)
  }

  lemma {:induction false} ParamCallsInRange(ch: Word, toks: seq<string>, value: Option<real>)
    requires ParamsDefined(toks, value)
    ensures InRange(ch, ParamCalls(ch, toks, value))
    decreases |toks|
  {
    if toks != [] {
      ParamCallsInRange(ch, toks[Taken(toks)..], NewValue(toks, value));
    }
  }

  lemma {:induction false} LinesCallsInRange(ch: Word, lines: seq<string>)
    requires LinesDefined(lines)
    ensures InRange(ch, LinesCalls(ch, lines))
  {
    if lines != [] {
      if SetsParameters(lines[0]) {
        ParamCallsInRange(ch, Params(lines[0]), None);
      }
      LinesCallsInRange(ch, lines[1..]);
    }
  }

  /** Every id that reaches the generator indexes its tables, on the channel of the line. */
  lemma CallsInRange(text: string)
    requires TextDefined(text)
    ensures InRange(Parse(text).channel, Parse(text).calls)
  {
    if InitiatorId(text) == CHANNEL {
      LinesCallsInRange(ChannelOf(Head(text, ':')), Lines(text));
    }
  }

  lemma {:induction false} AnyQueryExists(lines: seq<string>)
    ensures AnyQuery(lines) <==> exists line :: line in lines && "BSWV?" <= Head(line, ' ')
  {
    if lines != [] {
      TablesFindLongest(Head(lines[0], ' '));
      AnyQueryExists(lines[1..]);
    }
  }

  /** The read type, from the text alone. */
  lemma ReadTypeExact(text: string)
    requires TextDefined(text)
    ensures Parse(text).readType == Identification <==> "IDN-SGLT-PRI?" <= Head(text, ':')
    ensures !("C" <= Head(text, ':')) ==> Parse(text).channel == 0 && Parse(text).calls == []
    ensures Parse(text).readType == Parameters <==>
            "C" <= Head(text, ':') && exists line :: line in Lines(text) && "BSWV?" <= Head(line, ' ')
  {
    AnyQueryExists(Lines(text));
    var h := Head(text, ':');
    assert INITIATORS[0] <= h <==> InitiatorId(text) == ID_REQUEST;
    if "C" <= h {
      assert INITIATORS[1] <= h && h[0] == 'C';
    }
  }

  /** The number behind the letter is the channel; where there is none it is 0, and a negative one wraps to 32 bits. */
  lemma ChannelExact(initiator: string, space: string, sign: string, digits: string, rest: string)
    requires White(space) && IsSign(sign) && AllDigits(digits) && (rest == [] || !IsDigit(rest[0]))
    requires digits == [] && sign == "" ==>
               rest == [] || (rest[0] != ' ' && !(9 <= rest[0] as int <= 13) && rest[0] != '+' && rest[0] != '-')
    requires initiator == "C" + (space + (sign + digits + rest))
    ensures digits == [] ==> ChannelOf(initiator) == 0
    ensures digits != [] && Value(digits) < 0x1_0000_0000 ==>
              ChannelOf(initiator) == if sign == "-" && Value(digits) > 0 then 0x1_0000_0000 - Value(digits)
                                      else Value(digits)
  {
    hide ScanInt;
    assert initiator[1..] == space + (sign + digits + rest);
    ScanIntExact(initiator[1..], space, sign, digits, rest);
  }
}
