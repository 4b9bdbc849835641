/**
  A faithful FY6900 (awg_fy6900.cpp:16-22) at the end of the serial line, and
  what a SCPI line does to it once it has been parsed, driven and obeyed.
 */
module Fy6900 {
  import opened Octets
  import opened Numbers
  import opened Scpi
  import opened AwgFy

  datatype Parameter = OutputSwitch | WaveForm | Frequency | Amplitude | Offset | Phase

  type Key = (nat, Parameter)

  /** What the generator stores for each parameter of its two channels. */
  datatype Generator = Generator(stored: map<Key, real>)

  /** The letters of the protocol. */
  function ChannelOfLetter(c: char): Option<nat> {
    if c == 'M' then Some(1) else if c == 'F' then Some(2) else None
  }

  function ParameterOfLetter(c: char): Option<Parameter> {
    match c
    case 'N' => Some(OutputSwitch)
    case 'W' => Some(WaveForm)
    case 'F' => Some(Frequency)
    case 'A' => Some(Amplitude)
    case 'O' => Some(Offset)
    case 'P' => Some(Phase)
    case _ => None
  }

  /** The parameter a line "W" or "R", channel letter, code letter is about. */
  function KeyOfLine(line: string, command: char): Option<Key> {
    if |line| >= 3 && line[0] == command && ChannelOfLetter(line[1]).Some? && ParameterOfLetter(line[2]).Some? then
      Some((ChannelOfLetter(line[1]).value, ParameterOfLetter(line[2]).value))
    else None
  }

  /** A write line with a number is stored; other lines are ignored. */
  function Obey(g: Generator, line: string): Generator {
    var key := KeyOfLine(line, 'W');
    if key.None? then g
    else
      match ScanReal(line[3..])
      case None => g
      case Some(v) => Generator(g.stored[key.value := v])
  }

  /** Amplitudes are answered in units of 10^-4, offsets and phases in units of 10^-3. */
  function InUnits(p: Parameter, v: real): real {
    match p
    case Amplitude => 10000.0 * v
    case Offset => 1000.0 * v
    case Phase => 1000.0 * v
    case _ => v
  }

  /** A text of at most 20 characters that reads as x, without a newline. */
  ghost predicate Shows(text: string, x: real) {
    |text| <= 20 && '\n' !in text && ScanReal(text) == Some(x)
  }

  ghost predicate Showable(x: real) {
    exists text :: Shows(text, x)
  }

  /** The answer to a read line is a text that shows the stored number, if there is one, and a newline. */
  ghost predicate Answers(g: Generator, line: string, said: string) {
    var key := KeyOfLine(line, 'R');
    key.Some? && key.value in g.stored && Showable(InUnits(key.value.1, g.stored[key.value])) ==>
      exists text :: Shows(text, InUnits(key.value.1, g.stored[key.value])) && text + "\n" <= said
  }

  ghost function After(g: Generator, log: seq<Event>): Generator
    decreases |log|
  {
    if log == [] then g
    else
      match log[0]
      case Sent(line) => After(Obey(g, line), log[1..])
      case Asked(_, _) => After(g, log[1..])
  }

  lemma {:induction false} AfterConcat(g: Generator, a: seq<Event>, b: seq<Event>)
    ensures After(g, a + b) == After(After(g, a), b)
    decreases |a|
  {
    if a == [] {
      assert a + b == b;
    } else {
      assert (a + b)[0] == a[0] && (a + b)[1..] == a[1..] + b;
      AfterConcat(match a[0] case Sent(line) => Obey(g, line) case Asked(_, _) => g, a[1..], b);
    }
  }

  /** A generator that starts as g and answers faithfully, whatever it has been sent and asked. */
  ghost predicate Faithful(g: Generator, says: Voice) {
    forall log, line :: Answers(After(g, log), line, says(log, line))
  }

  ghost function Answer(g: Generator, line: string): (said: string)
    ensures Answers(g, line, said)
  {
    var key := KeyOfLine(line, 'R');
    if key.Some? && key.value in g.stored && Showable(InUnits(key.value.1, g.stored[key.value])) then
      var text :| Shows(text, InUnits(key.value.1, g.stored[key.value]));
      text + "\n"
    else ""
  }

  /** There is one for every state to start with. */
  lemma FaithfulExists(g: Generator)
    ensures exists says :: Faithful(g, says)
  {
    ghost var says: Voice := (log: seq<Event>, line: string) => Answer(After(g, log), line);
    assert Faithful(g, says);
  }

  // ---------- one parameter ----------

  function ParameterOf(id: nat): Parameter
    requires id < PARAMETER_COUNT
  {
    if id == OUTPUT_OFF || id == OUTPUT_ON then OutputSwitch
    else if id == WAVE then WaveForm
    else if id == FREQUENCY then Frequency
    else if id == AMPLITUDE then Amplitude
    else if id == OFFSET then Offset
    else Phase
  }

  /** Channel 0 stands for the main channel. */
  function KeyOf(channel: nat, id: nat): Key
    requires channel <= CHANNELS && id < PARAMETER_COUNT
  {
    (if channel == 0 then 1 else channel, ParameterOf(id))
  }

  lemma LettersAgree(channel: nat, id: nat)
    requires channel <= CHANNELS && id < PARAMETER_COUNT
    ensures ChannelOfLetter(FY_CHANNELS[channel]) == Some(KeyOf(channel, id).0)
    ensures ParameterOfLetter(FY_CODES[id]) == Some(KeyOf(channel, id).1)
  {
  }

  /** The decimals the generator gets of each number. */
  function Decimals(p: Parameter): nat {
    match p
    case Frequency => 6
    case Amplitude => 4
    case Offset => 3
    case Phase => 3
    case _ => 0
  }

  /** What a set leaves in the generator: 0 or 1 for the output, a sine, or the quantised value. */
  function StoredValue(id: nat, v: real): real
    requires id < PARAMETER_COUNT && Defined(FY6900[id], id, v)
  {
    if id <= OUTPUT_ON then (if Quantum(v, 0) == 0 then 0.0 else 1.0)
    else if id == WAVE then FY_SINE
    else Quantised(v, Decimals(ParameterOf(id)))
  }

  lemma Powers(m: real)
    ensures Scaled(m, -3) == m / 1000.0 && Scaled(m, -4) == m / 10000.0
  {
    assert Down(m, 1) == m / 10.0;
    assert Down(m, 2) == Down(m, 1) / 10.0;
    assert Down(m, 3) == Down(m, 2) / 10.0;
    assert Down(m, 4) == Down(m, 3) / 10.0;
  }

  lemma SwitchText(k: nat)
    requires k <= 1
    ensures ScanReal(Digits(k) + "\n") == Some(k as real)
  {
    ScanFixedPoint(k, 0, "\n");
    assert Decimal(k, 0) == k as real;
  }

  lemma WholeFloatText(x: real, p: nat, n: nat)
    requires x >= 0.0 && Scaled(x, p) == n as real
    ensures FloatText(x, p) == FixedPoint(n, p)
  {
    Floors(n);
  }

  lemma FloatTextIs(v: real, p: nat)
    requires 0 < p <= 9 && CastDefined(Shifted(v, p))
    ensures FloatText(Quantised(v, p), p) == FixedPoint(Quantum(v, p), p)
  {
    WholeUnits(v, p);
    WholeFloatText(Quantised(v, p), p, Quantum(v, p));
  }

  lemma QuantisedIsDecimal(v: real, p: nat)
    requires 0 < p <= 9 && CastDefined(Shifted(v, p))
    ensures Decimal(Quantum(v, p), p) == Quantised(v, p)
  {
    assert Scaled(Quantum(v, p) as real, 0 - p) == Down(Quantum(v, p) as real, p);
  }

  lemma NumberTextRead(v: real, p: nat)
    requires 0 < p <= 9 && CastDefined(Shifted(v, p))
    ensures ScanReal(FloatText(Quantised(v, p), p) + "\n") == Some(Quantised(v, p))
  {
    FloatTextIs(v, p);
    QuantisedIsDecimal(v, p);
    ScanFixedPoint(Quantum(v, p), p, "\n");
  }

  lemma SwitchArrives(id: nat, v: real)
    requires id <= OUTPUT_ON && Defined(FY6900[id], id, v)
    ensures NumberSent(FY6900[id], id, SetValue(FY6900[id], id, v)) == Digits(if Quantum(v, 0) == 0 then 0 else 1)
  {
    assert Target(FY6900[id], id, v) == Quantum(v, 0) as real;
    assert (0.0).Floor == 0 && (1.0).Floor == 1;
  }

  lemma WaveArrives(v: real)
    ensures NumberSent(FY6900[WAVE], WAVE, SetValue(FY6900[WAVE], WAVE, v)) == Digits(0)
  {
    assert FY_SINE.Floor == 0;
  }

  /** The number on the line reads as the stored value, for every row of the table. */
  lemma NumberArrives(id: nat, v: real)
    requires id < PARAMETER_COUNT && Defined(FY6900[id], id, v)
    ensures ScanReal(NumberSent(FY6900[id], id, SetValue(FY6900[id], id, v)) + "\n") == Some(StoredValue(id, v))
  {
    if id <= OUTPUT_ON {
      SwitchArrives(id, v);
      SwitchText(if Quantum(v, 0) == 0 then 0 else 1);
    } else if id == WAVE {
      WaveArrives(v);
      SwitchText(0);
    } else {
      var p := FY6900[id].setPrecision;
      assert SetValue(FY6900[id], id, v) == Quantised(v, p);
      assert NumberSent(FY6900[id], id, Quantised(v, p)) == FloatText(Quantised(v, p), p);
      NumberTextRead(v, p);
    }
  }

  lemma ObeyWrite(g: Generator, channel: char, code: char, text: string, v: real)
    requires ScanReal(text) == Some(v)
    ensures var key := KeyOfLine(['W', channel, code], 'W');
            key.Some? ==> Obey(g, ['W', channel, code] + text) == Generator(g.stored[key.value := v])
  {
    assert (['W', channel, code] + text)[3..] == text;
  }

  lemma WriteObeyed(g: Generator, channel: nat, id: nat, v: real)
    requires channel <= CHANNELS && id < PARAMETER_COUNT && Defined(FY6900[id], id, v)
    ensures Obey(g, WriteLine(FY6900[id], channel, id, v))
         == Generator(g.stored[KeyOf(channel, id) := StoredValue(id, v)])
  {
    NumberArrives(id, v);
    LettersAgree(channel, id);
    ObeyWrite(g, FY_CHANNELS[channel], FY_CODES[id],
              NumberSent(FY6900[id], id, SetValue(FY6900[id], id, v)) + "\n", StoredValue(id, v));
  }

  lemma QueryKey(channel: nat, id: nat)
    requires channel <= CHANNELS && id < PARAMETER_COUNT
    ensures KeyOfLine(QueryLine(channel, id), 'R') == Some(KeyOf(channel, id))
  {
    LettersAgree(channel, id);
  }

  /** Reading back through the scaling of the table gives exactly the stored value. */
  lemma NumberReads(id: nat, v: real, said: string)
    requires id < PARAMETER_COUNT && Defined(FY6900[id], id, v)
    requires ScanReal(FirstLine(said)) == Some(InUnits(ParameterOf(id), StoredValue(id, v)))
    ensures ReadBack(FY6900[id], said) == StoredValue(id, v)
  {
    Rescaling(id, v);
  }

  /** A text and a newline are read as the text. */
  lemma TextRead(text: string, x: real, said: string)
    requires Shows(text, x) && text + "\n" <= said
    ensures FirstLine(said) == text
  {
    assert said[..|text| + 1] == text + "\n";
    assert said[|text|] == '\n' && said[..|text|] == text;
    assert forall i :: 0 <= i < |text| ==> text[i] in text && said[i] == said[..|text|][i];
    assert |FirstLine(said)| == |text|;
  }

  /** The quantum a stored value shows as, and the decimals it shows with. */
  function ShownQuantum(id: nat, v: real): nat
    requires id < PARAMETER_COUNT && Defined(FY6900[id], id, v)
  {
    if id == WAVE then 0
    else if id <= OUTPUT_ON then (if Quantum(v, 0) == 0 then 0 else 1)
    else Quantum(v, FY6900[id].setPrecision)
  }

  function ShownDecimals(id: nat): nat {
    if id == FREQUENCY then 6 else 0
  }

  lemma ShownUnits(id: nat, v: real)
    requires id < PARAMETER_COUNT && Defined(FY6900[id], id, v)
    ensures InUnits(ParameterOf(id), StoredValue(id, v)) == Decimal(ShownQuantum(id, v), ShownDecimals(id))
  {
    if id == FREQUENCY {
      QuantisedIsDecimal(v, 6);
    } else if id > WAVE {
      Powers(Quantum(v, FY6900[id].setPrecision) as real);
    }
  }

  lemma ShownLength(n: nat, p: nat)
    requires |Digits(n)| < RESPONSE_LENGTH && p <= 6
    ensures |FixedPoint(n, p)| <= RESPONSE_LENGTH
  {
    AtLeastLength(n, p + 1);
  }

  /** Values whose answer fits the response buffer: 19 digits at most. */
  predicate Settable(id: nat, v: real)
    requires id < PARAMETER_COUNT
  {
    Defined(FY6900[id], id, v) && |Digits(ShownQuantum(id, v))| <= 19
  }

  lemma StoredShowable(id: nat, v: real)
    requires id < PARAMETER_COUNT && Settable(id, v)
    ensures Showable(InUnits(ParameterOf(id), StoredValue(id, v)))
  {
    var n, p := ShownQuantum(id, v), ShownDecimals(id);
    ShownUnits(id, v);
    ShownLength(n, p);
    ScanNumber(false, n, p);
    FixedPointChars(n, p);
    assert Shows(NumberText(false, n, p), InUnits(ParameterOf(id), StoredValue(id, v)));
  }

  /** Whatever a faithful generator says when it holds a stored value, that value is read back. */
  lemma ReadBackStored(g: Generator, channel: nat, id: nat, v: real, said: string)
    requires channel <= CHANNELS && id < PARAMETER_COUNT && Settable(id, v)
    requires KeyOf(channel, id) in g.stored && g.stored[KeyOf(channel, id)] == StoredValue(id, v)
    requires Answers(g, QueryLine(channel, id), said)
    ensures ReadBack(FY6900[id], said) == StoredValue(id, v)
  {
    hide ScanReal, ReadBack;
    QueryKey(channel, id);
    StoredShowable(id, v);
    var x := InUnits(ParameterOf(id), StoredValue(id, v));
    var text :| Shows(text, x) && text + "\n" <= said;
    TextRead(text, x, said);
    NumberReads(id, v, said);
  }

  /** The unit of the answers and the exponent of the table cancel. */
  lemma Rescaling(id: nat, v: real)
    requires id < PARAMETER_COUNT && Defined(FY6900[id], id, v)
    ensures Rescaled(FY6900[id], Some(InUnits(ParameterOf(id), StoredValue(id, v)))) == StoredValue(id, v)
  {
    Powers(InUnits(ParameterOf(id), StoredValue(id, v)));
  }

  lemma OneRound(g: Generator, line: string, query: string, said: string)
    ensures After(g, [Sent(line), Asked(query, said)]) == After(g, [Sent(line)]) == Obey(g, line)
  {
    var rest := [Asked(query, said)];
    assert [Sent(line), Asked(query, said)][1..] == rest;
    assert rest[1..] == [] && [Sent(line)][1..] == [];
    assert After(Obey(g, line), rest) == Obey(g, line);
  }

  /** Rounds of the same write and read leave what one write leaves, whatever is answered. */
  lemma {:induction false} RoundsSettle(g: Generator, channel: nat, id: nat, v: real, replies: seq<string>)
    requires channel <= CHANNELS && id < PARAMETER_COUNT && Defined(FY6900[id], id, v) && replies != []
    ensures After(g, Rounds(WriteLine(FY6900[id], channel, id, v), QueryLine(channel, id), replies))
         == Generator(g.stored[KeyOf(channel, id) := StoredValue(id, v)])
    decreases |replies|
  {
    hide Obey;
    var line, query := WriteLine(FY6900[id], channel, id, v), QueryLine(channel, id);
    var front, last := replies[..|replies| - 1], replies[|replies| - 1];
    var log := Rounds(line, query, front);
    AfterConcat(g, log, [Sent(line), Asked(query, last)]);
    OneRound(After(g, log), line, query, last);
    WriteObeyed(After(g, log), channel, id, v);
    if front != [] {
      RoundsSettle(g, channel, id, v, front);
    }
  }

  /** Whatever the generator answers and however many retries are allowed, it ends up with the stored value. */
  lemma SetSettles(g: Generator, channel: nat, id: nat, v: real,
                   log: seq<Event>, replies: seq<string>, r: int, ok: bool)
    requires channel <= CHANNELS && id < PARAMETER_COUNT && Defined(FY6900[id], id, v)
    requires Exchange(log, replies, FY6900[id], WriteLine(FY6900[id], channel, id, v), QueryLine(channel, id),
                      Target(FY6900[id], id, v), r, ok)
    ensures After(g, log) == Generator(g.stored[KeyOf(channel, id) := StoredValue(id, v)])
  {
    if r <= 0 {
      WriteObeyed(g, channel, id, v);
      OneRound(g, WriteLine(FY6900[id], channel, id, v), QueryLine(channel, id), "");
    } else {
      RoundsSettle(g, channel, id, v, replies);
    }
  }

  // ---------- validation against a faithful generator ----------

  /** The answer of the last round is what the voice says after its write. */
  lemma LastHeard(says: Voice, before: seq<Event>, line: string, query: string, replies: seq<string>)
    requires replies != [] && Heard(says, before, Rounds(line, query, replies))
    ensures var front := Rounds(line, query, replies[..|replies| - 1]);
            && Heard(says, before, front)
            && replies[|replies| - 1] == says(before + front + [Sent(line)], query)
  {
    var front := Rounds(line, query, replies[..|replies| - 1]);
    var said := replies[|replies| - 1];
    var log := Rounds(line, query, replies);
    assert log == front + [Sent(line), Asked(query, said)];
    assert log[..|log| - 1] == front + [Sent(line)];
    assert (front + [Sent(line)])[..|front|] == front;
    assert before + (front + [Sent(line)]) == before + front + [Sent(line)];
  }

  lemma StateAsked(g: Generator, before: seq<Event>, line: string, front: seq<Event>)
    ensures After(g, before + front + [Sent(line)]) == Obey(After(After(g, before), front), line)
  {
    AfterConcat(g, before + front, [Sent(line)]);
    AfterConcat(g, before, front);
    OneRound(After(g, before + front), line, "", "");
  }

  /** Every read-back of a set gives the stored value. */
  lemma {:induction false} RoundsReadBack(g: Generator, says: Voice, before: seq<Event>, channel: nat, id: nat, v: real,
                                          replies: seq<string>, i: nat)
    requires channel <= CHANNELS && id < PARAMETER_COUNT && Settable(id, v) && Faithful(g, says)
    requires Heard(says, before, Rounds(WriteLine(FY6900[id], channel, id, v), QueryLine(channel, id), replies))
    requires i < |replies|
    ensures ReadBack(FY6900[id], replies[i]) == StoredValue(id, v)
    decreases |replies|
  {
    hide Obey, ReadBack, Answers;
    var line, query := WriteLine(FY6900[id], channel, id, v), QueryLine(channel, id);
    var n := |replies| - 1;
    LastHeard(says, before, line, query, replies);
    if i < n {
      RoundsReadBack(g, says, before, channel, id, v, replies[..n], i);
    } else {
      var front := Rounds(line, query, replies[..n]);
      var state := After(g, before + front + [Sent(line)]);
      StateAsked(g, before, line, front);
      WriteObeyed(After(After(g, before), front), channel, id, v);
      assert Answers(state, query, says(before + front + [Sent(line)], query));
      ReadBackStored(state, channel, id, v, replies[n]);
    }
  }

  /**
    On a faithful generator a set with retries succeeds exactly when the stored
    value is the one it compares with, and then after one write and one read-back.
   */
  lemma SetVerified(g: Generator, says: Voice, before: seq<Event>, channel: nat, id: nat, v: real,
                    log: seq<Event>, replies: seq<string>, r: int, ok: bool)
    requires channel <= CHANNELS && id < PARAMETER_COUNT && Settable(id, v) && Faithful(g, says) && r > 0
    requires Exchange(log, replies, FY6900[id], WriteLine(FY6900[id], channel, id, v), QueryLine(channel, id),
                      Target(FY6900[id], id, v), r, ok)
    requires Heard(says, before, log)
    ensures ok <==> StoredValue(id, v) == Target(FY6900[id], id, v)
    ensures |log| == if ok then 2 else 2 * (r + 1)
  {
    var n := |replies| - 1;
    RoundsReadBack(g, says, before, channel, id, v, replies, 0);
    RoundsReadBack(g, says, before, channel, id, v, replies, n);
    RoundsLength(WriteLine(FY6900[id], channel, id, v), QueryLine(channel, id), replies);
  }

  lemma {:induction false} RoundsLength(line: string, query: string, replies: seq<string>)
    ensures |Rounds(line, query, replies)| == 2 * |replies|
  {
    if replies != [] {
      RoundsLength(line, query, replies[..|replies| - 1]);
    }
  }

  /** get on a faithful generator gives the value that was stored. */
  method GetStored(awg: AwgFy, channel: Word, id: Word, ghost v: real, ghost g: Generator) returns (value: real)
    requires awg.table == FY6900 && channel <= CHANNELS && id < PARAMETER_COUNT && Settable(id, v)
    requires Faithful(g, awg.says)
    requires var now := After(g, awg.serial).stored;
             KeyOf(channel, id) in now && now[KeyOf(channel, id)] == StoredValue(id, v)
    modifies awg`serial
    ensures value == StoredValue(id, v)
  {
    ghost var before := awg.serial;
    value := awg.Get(channel, id);
    ghost var said := awg.serial[|awg.serial| - 1].said;
    assert Answers(After(g, before), QueryLine(channel, id), awg.says(before, QueryLine(channel, id)));
    ReadBackStored(After(g, before), channel, id, v, said);
  }

  /**
    set with retries on a faithful generator: it holds the stored value, and set
    returns true, after one round, exactly for a switch below 1.5, the sine and
    every number; for the others it never does.
   */
  method SetStored(awg: AwgFy, channel: Word, id: Word, v: real, ghost g: Generator) returns (ok: bool)
    requires awg.table == FY6900 && channel <= CHANNELS && id < PARAMETER_COUNT && Settable(id, v)
    requires Faithful(g, awg.says) && ToInt(awg.retryCount) > 0
    modifies awg`serial
    ensures After(g, awg.serial)
         == Generator(After(g, old(awg.serial)).stored[KeyOf(channel, id) := StoredValue(id, v)])
    ensures ok <==> (id <= OUTPUT_ON ==> v < 1.5) && (id == WAVE ==> v == SINE)
    ensures |awg.serial| == |old(awg.serial)| + if ok then 2 else 2 * (ToInt(awg.retryCount) + 1)
  {
    ghost var before := awg.serial;
    ghost var log, replies;
    ok, log, replies := awg.Set(channel, id, v);
    SetSettles(After(g, before), channel, id, v, log, replies, ToInt(awg.retryCount), ok);
    SetVerified(g, awg.says, before, channel, id, v, log, replies, ToInt(awg.retryCount), ok);
    AfterConcat(g, before, log);
    Verifiable(id, v);
  }

  /** The values that validate: a switch of 0 or 1, the sine, and every number. */
  lemma Verifiable(id: nat, v: real)
    requires id < PARAMETER_COUNT && Defined(FY6900[id], id, v)
    ensures StoredValue(id, v) == Target(FY6900[id], id, v) <==>
            (id <= OUTPUT_ON ==> v < 1.5) && (id == WAVE ==> v == SINE)
  {
    if id <= OUTPUT_ON {
      assert Shifted(v, 0) == v + 0.5;
    }
  }

  lemma NotNegativeDefined(id: nat, v: real)
    requires id < PARAMETER_COUNT && 0.0 <= v <= 1000000000000.0
    ensures Defined(FY6900[id], id, v)
    ensures id > WAVE ==> Quantum(v, FY6900[id].setPrecision) <= 1_000_000_000_000_000_000
  {
    var big := 1000000000000.0;
    var e := Exponent(FY6900[id].setPrecision);
    ScaledDifference(0.0, v, e);
    ScaledDifference(v, big, e);
    assert Up(big, 1) == 10.0 * Up(big, 0) == 10.0 * big;
    assert Up(big, 2) == 10.0 * Up(big, 1);
    assert Up(big, 3) == 10.0 * Up(big, 2);
    assert Up(big, 4) == 10.0 * Up(big, 3);
    assert Up(big, 5) == 10.0 * Up(big, 4);
    assert Up(big, 6) == 10.0 * Up(big, 5);
  }

  lemma EighteenZeros()
    ensures Pow(19) == 10_000_000_000_000_000_000
  {
    assert Pow(3) == 1000;
    assert Pow(6) == 1000 * Pow(3);
    assert Pow(9) == 1000 * Pow(6);
    assert Pow(12) == 1000 * Pow(9);
    assert Pow(15) == 1000 * Pow(12);
    assert Pow(18) == 1000 * Pow(15);
  }

  /** Every number from 0 to 10^12 can be set and read back. */
  lemma NotNegativeSettable(id: nat, v: real)
    requires id < PARAMETER_COUNT && 0.0 <= v <= 1000000000000.0
    ensures Settable(id, v)
  {
    NotNegativeDefined(id, v);
    EighteenZeros();
    DigitsShort(ShownQuantum(id, v), 19);
  }
}
