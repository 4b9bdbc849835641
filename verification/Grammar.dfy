/**
  The SCPI lines of the documented grammar (scpi.h:62-102), how they are printed,
  and that parsing a printed line gives back what it was printed from.
 */
module Grammar {
  import opened Octets
  import opened Tokenizer
  import opened Numbers
  import opened Scpi

  /**
    What may stand between the commas: ON or OFF, a wave by name, a parameter with a
    number n / 10^p, a parameter with a text that is no number, so that the value
    before it stands, and a name that is none of these.
   */
  datatype Setting =
    | Switch(on: bool)
    | Wave(name: string)
    | Number(id: nat, negative: bool, n: nat, p: nat)
    | Repeat(id: nat, text: string)
    | Unknown(name: string)

  /** OUTP, BSWV, BSWV?, and a command that is none of these. */
  datatype Command =
    | Output(settings: seq<Setting>)
    | Basic(settings: seq<Setting>)
    | Query
    | Other(name: string, args: string)

  /** A command with the spaces in front of it, as in "C1:OUTP ON; BSWV FRQ,1000". */
  datatype CommandLine = CommandLine(indent: nat, command: Command)

  predicate IsName(s: string) {
    s != [] && ',' !in s && ';' !in s
  }

  predicate KnownName(s: string) {
    "OFF" <= s || "ON" <= s || "WVTP" <= s || "FRQ" <= s || "AMP" <= s || "OFST" <= s || "PHSE" <= s
  }

  predicate Proper(s: Setting) {
    match s
    case Switch(_) => true
    case Wave(name) => IsName(name)
    case Number(id, _, _, _) => FREQUENCY <= id <= PHASE
    case Repeat(id, text) => FREQUENCY <= id <= PHASE && IsName(text) && ScanReal(text) == None
    case Unknown(name) => IsName(name) && !KnownName(name)
  }

  /** A text that is no number has a value before it to stand. */
  predicate ProperList(list: seq<Setting>, value: Option<real>) {
    list == [] ||
    (Proper(list[0]) && (list[0].Repeat? ==> value.Some?) && ProperList(list[1..], ValueAfter(list[0], value)))
  }

  predicate ProperLine(line: CommandLine) {
    match line.command
    case Output(settings) => ProperList(settings, None)
    case Basic(settings) => ProperList(settings, None)
    case Query => true
    case Other(name, args) =>
      && name != [] && ' ' !in name && ';' !in name && ';' !in args
      && !("OUTP" <= name || "BSWV" <= name)
  }

  // ---------- printing ----------

  function Spaces(k: nat): (s: string)
    ensures |s| == k && forall i :: 0 <= i < k ==> s[i] == ' '
  {
    seq(k, _ => ' ')
  }

  /** The names of the documentation. */
  function NumberName(id: nat): string
    requires FREQUENCY <= id <= PHASE
  {
    if id == FREQUENCY then "FRQ" else if id == AMPLITUDE then "AMP" else if id == OFFSET then "OFST" else "PHSE"
  }

  function Texts(s: Setting): seq<string>
    requires Proper(s)
  {
    match s
    case Switch(on) => [if on then "ON" else "OFF"]
    case Wave(name) => ["WVTP", name]
    case Number(id, negative, n, p) => [NumberName(id), NumberText(negative, n, p)]
    case Repeat(id, text) => [NumberName(id), text]
    case Unknown(name) => [name]
  }

  function SettingTokens(list: seq<Setting>, value: Option<real>): seq<string>
    requires ProperList(list, value)
  {
    if list == [] then [] else Texts(list[0]) + SettingTokens(list[1..], ValueAfter(list[0], value))
  }

  function PrintLine(line: CommandLine): string
    requires ProperLine(line)
  {
    var lead := Spaces(line.indent);
    match line.command
    case Output(settings) => lead + "OUTP" + " " + Join(SettingTokens(settings, None), ',')
    case Basic(settings) => lead + "BSWV" + " " + Join(SettingTokens(settings, None), ',')
    case Query => lead + "BSWV?"
    case Other(name, args) => lead + name + " " + args
  }

  function PrintLines(lines: seq<CommandLine>): seq<string>
    requires forall line :: line in lines ==> ProperLine(line)
  {
    if lines == [] then [] else [PrintLine(lines[0])] + PrintLines(lines[1..])
  }

  function Print(ch: Word, lines: seq<CommandLine>): string
    requires forall line :: line in lines ==> ProperLine(line)
  {
    "C" + Digits(ch) + ":" + Join(PrintLines(lines), ';')
  }

  // ---------- meaning ----------

  /** The value that stands after a setting: ON is 1, OFF is 0, and every wave is a sine, 0. */
  function ValueAfter(s: Setting, value: Option<real>): Option<real> {
    match s
    case Switch(on) => Some(if on then 1.0 else 0.0)
    case Wave(_) => Some(0.0)
    case Number(_, negative, n, p) => Some(NumberValue(negative, n, p))
    case Repeat(_, _) => value
    case Unknown(_) => value
  }

  /** The id a setting sets. */
  function IdOf(s: Setting): Option<nat> {
    match s
    case Switch(on) => Some(if on then OUTPUT_ON else OUTPUT_OFF)
    case Wave(_) => Some(WAVE)
    case Number(id, _, _, _) => Some(id)
    case Repeat(id, _) => Some(id)
    case Unknown(_) => None
  }

  /** One call for each known name, in order. */
  function SettingCalls(ch: Word, list: seq<Setting>, value: Option<real>): seq<SetCall>
    requires ProperList(list, value)
  {
    if list == [] then []
    else
      var v := ValueAfter(list[0], value);
      (if IdOf(list[0]).None? then [] else [SetCall(ch, IdOf(list[0]).value, v.value)])
      + SettingCalls(ch, list[1..], v)
  }

  function CommandCalls(ch: Word, line: CommandLine): seq<SetCall>
    requires ProperLine(line)
  {
    match line.command
    case Output(settings) => SettingCalls(ch, settings, None)
    case Basic(settings) => SettingCalls(ch, settings, None)
    case Query => []
    case Other(_, _) => []
  }

  function AllCalls(ch: Word, lines: seq<CommandLine>): seq<SetCall>
    requires forall line :: line in lines ==> ProperLine(line)
  {
    if lines == [] then [] else CommandCalls(ch, lines[0]) + AllCalls(ch, lines[1..])
  }

  predicate Asks(lines: seq<CommandLine>) {
    lines != [] && (lines[0].command.Query? || Asks(lines[1..]))
  }

  // ---------- tokens of printed text ----------

  lemma {:induction false} KeepAll(fs: seq<string>)
    requires [] !in fs
    ensures NonEmpty(fs) == fs
  {
    if fs != [] {
      KeepAll(fs[1..]);
    }
  }

  lemma TokensOfJoin(fs: seq<string>, d: char)
    requires forall f :: f in fs ==> f != [] && d !in f
    ensures Tokens(Join(fs, d), d) == fs
  {
    if fs == [] {
      NoTokens(d);
    } else {
      JoinFields(fs, d);
      KeepAll(fs);
    }
  }

  lemma {:induction false} JoinFree(fs: seq<string>, d: char, other: char)
    requires other != d && forall f :: f in fs ==> other !in f
    ensures other !in Join(fs, d)
  {
    if |fs| > 1 {
      JoinFree(fs[1..], d, other);
    }
  }

  lemma NumberFree(negative: bool, n: nat, p: nat, d: char)
    requires d == ',' || d == ';'
    ensures NumberText(negative, n, p) != [] && d !in NumberText(negative, n, p)
  {
    FixedPointChars(n, p);
  }

  // ---------- the round trip ----------

  /** The documented names stand in the table at the ids they are documented for. */
  lemma NamesMatch()
    ensures MatchId("OFF", PARAMETERS) == OUTPUT_OFF && MatchId("ON", PARAMETERS) == OUTPUT_ON
    ensures MatchId("WVTP", PARAMETERS) == WAVE
    ensures MatchId("FRQ", PARAMETERS) == FREQUENCY && MatchId("AMP", PARAMETERS) == AMPLITUDE
    ensures MatchId("OFST", PARAMETERS) == OFFSET && MatchId("PHSE", PARAMETERS) == PHASE
  {
    TablesAreSafe();
    EntryMatches(PARAMETERS, OUTPUT_OFF);
    EntryMatches(PARAMETERS, OUTPUT_ON);
    EntryMatches(PARAMETERS, WAVE);
    EntryMatches(PARAMETERS, FREQUENCY);
    EntryMatches(PARAMETERS, AMPLITUDE);
    EntryMatches(PARAMETERS, OFFSET);
    EntryMatches(PARAMETERS, PHASE);
  }

  /** A name is known exactly when it starts with a documented one. */
  lemma KnownNames(s: string)
    ensures MatchId(s, PARAMETERS) >= 0 <==> KnownName(s)
  {
    TablesFindLongest(s);
    assert PARAMETERS[0] == "OFF" && PARAMETERS[1] == "ON" && PARAMETERS[2] == "WVTP" && PARAMETERS[3] == "FRQ";
    assert PARAMETERS[4] == "AMP" && PARAMETERS[5] == "OFST" && PARAMETERS[6] == "PHSE";
  }

  lemma NumberNames(id: nat)
    requires FREQUENCY <= id <= PHASE
    ensures MatchId(NumberName(id), PARAMETERS) == id && IsName(NumberName(id))
  {
    hide MatchId;
    NamesMatch();
  }

  /** What the tokens of one setting take, and the value after them. */
  lemma SettingReads(s: Setting, value: Option<real>, rest: seq<string>)
    requires Proper(s) && (s.Repeat? ==> value.Some?)
    ensures var toks := Texts(s) + rest;
            && (forall t :: t in Texts(s) ==> IsName(t))
            && toks[Taken(toks)..] == rest && NewValue(toks, value) == ValueAfter(s, value)
            && (if IdOf(s).None? then ParamId(toks) < 0 else ParamId(toks) == IdOf(s).value)
            && (ParamId(toks) > WAVE ==> |toks| > 1)
  {
    hide MatchId, ScanReal, NumberText, NumberValue;
    var toks := Texts(s) + rest;
    match s
    case Switch(on) =>
      NamesMatch();
    case Wave(name) =>
      NamesMatch();
    case Number(id, negative, n, p) =>
      NumberNames(id);
      NumberFree(negative, n, p, ',');
      NumberFree(negative, n, p, ';');
      ScanNumber(negative, n, p);
    case Repeat(id, _) =>
      NumberNames(id);
    case Unknown(name) =>
      KnownNames(name);
  }

  lemma {:induction false} SettingsRoundTrip(ch: Word, list: seq<Setting>, value: Option<real>)
    requires ProperList(list, value)
    ensures var toks := SettingTokens(list, value);
            && (forall t :: t in toks ==> IsName(t))
            && ParamsDefined(toks, value)
            && ParamCalls(ch, toks, value) == SettingCalls(ch, list, value)
  {
    if list != [] {
      var s := list[0];
      var v := ValueAfter(s, value);
      SettingReads(s, value, SettingTokens(list[1..], v));
      SettingsRoundTrip(ch, list[1..], v);
    }
  }

  lemma CommandNames()
    ensures MatchId("OUTP", COMMANDS) == SET_OUTPUT
    ensures MatchId("BSWV", COMMANDS) == SET_PARAMETERS
    ensures MatchId("BSWV?", COMMANDS) == GET_PARAMETERS
  {
    TablesAreSafe();
    EntryMatches(COMMANDS, SET_OUTPUT);
    EntryMatches(COMMANDS, GET_PARAMETERS);
    EntryMatches(COMMANDS, SET_PARAMETERS);
  }

  /** A command with parameters behind a space. */
  lemma CommandRoundTrip(ch: Word, lead: string, name: string, args: string, id: int)
    requires forall i :: 0 <= i < |lead| ==> lead[i] == ' '
    requires name != [] && ' ' !in name && ';' !in name && MatchId(name, COMMANDS) == id
    requires id == SET_OUTPUT || id == SET_PARAMETERS
    requires ';' !in args && ParamsDefined(Tokens(args, ','), None)
    ensures var text := lead + name + " " + args;
            && text != [] && ';' !in text && LineDefined(text) && CommandId(text) == id
            && LineCalls(ch, text) == ParamCalls(ch, Tokens(args, ','), None)
  {
    HeadTail(lead, name, ' ', args);
  }

  /** What a printed line keeps of its command. */
  ghost predicate Keeps(ch: Word, text: string, calls: seq<SetCall>, query: bool) {
    && text != [] && ';' !in text && LineDefined(text) && LineCalls(ch, text) == calls
    && (CommandId(text) == GET_PARAMETERS <==> query)
  }

  ghost predicate IsLead(lead: string) {
    forall i :: 0 <= i < |lead| ==> lead[i] == ' '
  }

  lemma QueryRoundTrip(ch: Word, lead: string)
    requires IsLead(lead)
    ensures Keeps(ch, lead + "BSWV?", [], true)
  {
    TablesAreSafe();
    EntryMatches(COMMANDS, GET_PARAMETERS);
    HeadTail(lead, "BSWV?", ' ', []);
  }

  lemma ListRoundTrip(ch: Word, lead: string, name: string, id: int, settings: seq<Setting>)
    requires IsLead(lead) && ProperList(settings, None)
    requires name != [] && ' ' !in name && ';' !in name && MatchId(name, COMMANDS) == id
    requires id == SET_OUTPUT || id == SET_PARAMETERS
    ensures Keeps(ch, lead + name + " " + Join(SettingTokens(settings, None), ','),
                  SettingCalls(ch, settings, None), false)
  {
    var toks := SettingTokens(settings, None);
    SettingsRoundTrip(ch, settings, None);
    TokensOfJoin(toks, ',');
    JoinFree(toks, ',', ';');
    CommandRoundTrip(ch, lead, name, Join(toks, ','), id);
  }

  lemma OtherRoundTrip(ch: Word, lead: string, name: string, args: string)
    requires IsLead(lead) && name != [] && ' ' !in name && ';' !in name && ';' !in args
    requires !("OUTP" <= name || "BSWV" <= name)
    ensures Keeps(ch, lead + name + " " + args, [], false)
  {
    HeadTail(lead, name, ' ', args);
    UnknownCommand(name);
  }

  lemma UnknownCommand(name: string)
    ensures MatchId(name, COMMANDS) >= 0 <==> "OUTP" <= name || "BSWV" <= name
  {
    TablesFindLongest(name);
    assert COMMANDS[0] == "OUTP" && COMMANDS[1] == "BSWV?" && COMMANDS[2] == "BSWV";
    if "BSWV?" <= name {
      assert name[..4] == "BSWV?"[..4] == "BSWV";
    }
  }

  lemma LineRoundTrip(ch: Word, line: CommandLine)
    requires ProperLine(line)
    ensures Keeps(ch, PrintLine(line), CommandCalls(ch, line), line.command.Query?)
  {
    CommandNames();
    match line.command
    case Query => QueryRoundTrip(ch, Spaces(line.indent));
    case Output(settings) => ListRoundTrip(ch, Spaces(line.indent), "OUTP", SET_OUTPUT, settings);
    case Basic(settings) => ListRoundTrip(ch, Spaces(line.indent), "BSWV", SET_PARAMETERS, settings);
    case Other(name, args) => OtherRoundTrip(ch, Spaces(line.indent), name, args);
  }

  lemma {:induction false} LinesRoundTrip(ch: Word, lines: seq<CommandLine>)
    requires forall line :: line in lines ==> ProperLine(line)
    ensures var texts := PrintLines(lines);
            && (forall t :: t in texts ==> t != [] && ';' !in t)
            && LinesDefined(texts)
            && LinesCalls(ch, texts) == AllCalls(ch, lines)
            && (AnyQuery(texts) <==> Asks(lines))
  {
    if lines != [] {
      LineRoundTrip(ch, lines[0]);
      LinesRoundTrip(ch, lines[1..]);
      assert PrintLines(lines)[1..] == PrintLines(lines[1..]);
    }
  }

  lemma ChannelRoundTrip(ch: Word)
    ensures MatchId("C" + Digits(ch), INITIATORS) == CHANNEL
    ensures ChannelOf("C" + Digits(ch)) == ch
  {
    var initiator := "C" + Digits(ch);
    assert initiator[0] == 'C' && INITIATORS[1] <= initiator;
    assert initiator[1..] == Digits(ch) + [];
    ScanDigits(ch, []);
  }

  lemma InitiatorRoundTrip(ch: Word, body: string)
    ensures var text := "C" + Digits(ch) + ":" + body;
            && HasToken(text, ':') && Tail(text, ':') == body
            && InitiatorId(text) == CHANNEL && ChannelOf(Head(text, ':')) == ch
  {
    ChannelRoundTrip(ch);
    FirstField("C" + Digits(ch), ':', body);
  }

  /** Parsing a printed line gives back its channel and its settings in order, every wave as a sine. */
  lemma RoundTrip(ch: Word, lines: seq<CommandLine>)
    requires forall line :: line in lines ==> ProperLine(line)
    ensures TextDefined(Print(ch, lines))
    ensures Parse(Print(ch, lines)) == Outcome(ch, if Asks(lines) then Parameters else NoRead, AllCalls(ch, lines))
  {
    InitiatorRoundTrip(ch, Join(PrintLines(lines), ';'));
    LinesRoundTrip(ch, lines);
    TokensOfJoin(PrintLines(lines), ';');
  }
}
