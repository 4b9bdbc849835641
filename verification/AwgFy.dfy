/**
  The driver of the FeelTech generators (awg_fy.cpp) with the translation table
  of the FY6900 (awg_fy6900.cpp): quantise, print, send, read back, compare, retry.
  Values are exact reals. The generator at the other end may answer anything.
 */
module AwgFy {
  import opened Octets
  import opened Tokenizer
  import opened Numbers
  import opened Scpi

  datatype ValueType = Boolean | Integer | Double

  /** One row of a translation table; no table of the repository uses a width. */
  datatype Translator = Translator(
    setType: ValueType, setExponent: int, setPrecision: nat, getType: ValueType, getExponent: int)

  const FY6900: seq<Translator> := [
    Translator(Boolean, 0, 0, Boolean, 0),
    Translator(Boolean, 0, 0, Boolean, 0),
    Translator(Integer, 0, 0, Integer, 0),
    Translator(Double, 0, 6, Double, 0),
    Translator(Double, 0, 4, Integer, -4),
    Translator(Double, 0, 3, Integer, -3),
    Translator(Double, 0, 3, Integer, -3)]

  const FY_CODES: string := "NNWFAOP"
  const FY_CHANNELS: string := "MMF"
  const CHANNELS: nat := 2
  const RESPONSE_LENGTH: nat := 20

  /** fy::Sine */
  const FY_SINE := 0.0

  // ---------- quantisation ----------

  /** The doubles whose cast to uint64_t is defined. */
  predicate CastDefined(x: real) {
    -1.0 < x < 18446744073709551616.0
  }

  function Cast(x: real): nat
    requires CastDefined(x)
  {
    if x < 0.0 then 0 else x.Floor
  }

  /** value * p10 + 0.5 */
  function Shifted(v: real, p: int): real {
    Scaled(v, Exponent(p)) + 0.5
  }

  /** The number of units of 10^-p nearest to v. */
  function Quantum(v: real, p: int): nat
    requires CastDefined(Shifted(v, p))
  {
    Cast(Shifted(v, p))
  }

  function Quantised(v: real, p: int): (q: real)
    requires CastDefined(Shifted(v, p))
    ensures q >= 0.0
  {
    Scaled(Quantum(v, p) as real, -Exponent(p))
  }

  /** Scaled up again, the quantised value is a whole number of units. */
  lemma WholeUnits(v: real, p: int)
    requires CastDefined(Shifted(v, p))
    ensures Scaled(Quantised(v, p), Exponent(p)) == Quantum(v, p) as real
  {
    ScaledBack(Quantum(v, p) as real, -Exponent(p));
  }

  /** The quantised value is within half a unit just when the value is not below minus half a unit. */
  lemma HalfUnit(v: real, p: int)
    requires CastDefined(Shifted(v, p))
    ensures -0.5 <= Scaled(Quantised(v, p) - v, Exponent(p)) <= 0.5 <==> Scaled(v, Exponent(p)) >= -0.5
  {
    WholeUnits(v, p);
    ScaledDifference(Quantised(v, p), v, Exponent(p));
  }

  /** The cast is defined and the result within half a unit for exactly these values. */
  lemma Quantisable(v: real, p: int)
    ensures CastDefined(Shifted(v, p)) && -0.5 <= Scaled(Quantised(v, p) - v, Exponent(p)) <= 0.5 <==>
            -0.5 <= Scaled(v, Exponent(p)) < 18446744073709551615.5
  {
    if CastDefined(Shifted(v, p)) {
      HalfUnit(v, p);
    }
  }

  /** The documented offset of -1.375 V (scpi.h:87) is not among them. */
  lemma DocumentedOffset()
    ensures !Defined(FY6900[OFFSET], OFFSET, -1.375)
  {
    assert Up(-1.375, 1) == -13.75;
    assert Up(-1.375, 2) == -137.5;
    assert Up(-1.375, 3) == -1375.0;
  }

  /** The quantum is the nearest whole number, and a half goes up; from below 0 the cast drops the fraction. */
  lemma QuantumExact(v: real, p: int)
    requires CastDefined(Shifted(v, p))
    ensures Scaled(v, Exponent(p)) >= -0.5 ==>
              Quantum(v, p) as real - 0.5 <= Scaled(v, Exponent(p)) < Quantum(v, p) as real + 0.5
    ensures Scaled(v, Exponent(p)) < -0.5 ==> Quantum(v, p) == 0
  {
  }

  lemma Floors(n: nat)
    ensures (n as real + 0.5).Floor == n
  {
  }

  lemma QuantisedTwice(v: real, p: int)
    requires CastDefined(Shifted(v, p))
    ensures CastDefined(Shifted(Quantised(v, p), p))
    ensures Quantised(Quantised(v, p), p) == Quantised(v, p)
  {
    WholeUnits(v, p);
    Floors(Quantum(v, p));
  }

  lemma QuantisedMonotone(v: real, w: real, p: int)
    requires v <= w && CastDefined(Shifted(v, p)) && CastDefined(Shifted(w, p))
    ensures Quantum(v, p) <= Quantum(w, p) && Quantised(v, p) <= Quantised(w, p)
  {
    ScaledDifference(v, w, Exponent(p));
    ScaledDifference(Quantum(v, p) as real, Quantum(w, p) as real, -Exponent(p));
  }

  // ---------- what set sends and expects ----------

  /** The value set compares with: quantised, except for a wave. */
  function Target(row: Translator, id: nat, v: real): real
    requires Defined(row, id, v)
  {
    if id == WAVE then v else Quantised(v, row.setPrecision)
  }

  function SetValue(row: Translator, id: nat, v: real): (x: real)
    requires Defined(row, id, v)
    ensures x >= 0.0
  {
    if row.setType == Boolean then (if Target(row, id, v) == 0.0 then 0.0 else 1.0)
    else if id == WAVE then FY_SINE
    else Scaled(Target(row, id, v), Exponent(row.setExponent))
  }

  predicate Defined(row: Translator, id: nat, v: real) {
    id == WAVE || CastDefined(Shifted(v, row.setPrecision))
  }

  /** What _FLOAT(x, p) prints: x rounded half up to p decimals. */
  function FloatText(x: real, p: nat): string
    requires x >= 0.0
  {
    FixedPoint((Scaled(x, p) + 0.5).Floor, p)
  }

  /** The number as it is printed: a double without a precision gets the two decimals of Print. */
  function NumberSent(row: Translator, id: nat, x: real): string
    requires x >= 0.0
  {
    var precision := if id == WAVE then 0 else row.setPrecision;
    if row.setType == Double then FloatText(x, if precision > 0 then precision else 2)
    else Digits(x.Floor)
  }

  function WriteLine(row: Translator, channel: nat, id: nat, v: real): string
    requires channel <= CHANNELS && id < PARAMETER_COUNT && Defined(row, id, v)
  {
    ['W', FY_CHANNELS[channel], FY_CODES[id]] + (NumberSent(row, id, SetValue(row, id, v)) + "\n")
  }

  function QueryLine(channel: nat, id: nat): string
    requires channel <= CHANNELS && id < PARAMETER_COUNT
  {
    ['R', FY_CHANNELS[channel], FY_CODES[id]] + "\n\n"
  }

  /** What get makes of the number in an answer; -1.23 stands when there is none. */
  function Rescaled(row: Translator, number: Option<real>): real {
    var value := Scaled(if number.Some? then number.value else -1.23, Exponent(row.getExponent));
    if row.getType == Boolean then (if value == 0.0 then 0.0 else 1.0) else value
  }

  /** What is read of what the generator says: up to the newline, and 20 characters at most. */
  function FirstLine(said: string): (r: string)
    ensures r <= said && |r| <= 20 && '\n' !in r
    ensures |r| == 20 || |r| == |said| || said[|r|] == '\n'
  {
    said[..Min(RESPONSE_LENGTH, Span(said, '\n', 0))]
  }

  function ReadBack(row: Translator, said: string): real {
    Rescaled(row, ScanReal(FirstLine(said)))
  }

  /** What is sent and what is read are the values scaled to the units of the row, which scaling back undoes. */
  lemma UnitsOfRow(row: Translator, id: nat, v: real, x: real)
    requires Defined(row, id, v)
    ensures row.setType != Boolean && id != WAVE ==>
              Scaled(SetValue(row, id, v), -Exponent(row.setExponent)) == Target(row, id, v)
    ensures row.getType != Boolean ==> Scaled(Rescaled(row, Some(x)), -Exponent(row.getExponent)) == x
    ensures row.getType == Boolean ==> Rescaled(row, Some(x)) == if x == 0.0 then 0.0 else 1.0
    ensures Rescaled(row, None) == Rescaled(row, Some(-1.23))
  {
    ScaledBack(Target(row, id, v), Exponent(row.setExponent));
    ScaledBack(x, Exponent(row.getExponent));
    ScaledBack(0.0, Exponent(row.getExponent));
    ScaledZero(Exponent(row.getExponent));
  }

  lemma ScaledZero(e: int)
    ensures Scaled(0.0, e) == 0.0
  {
    ScaledDifference(0.0, 0.0, e);
  }

  /** The number on the line: rounded half up to the decimals of the row, 2 when it has none, or a whole number. */
  lemma NumberSentIs(row: Translator, id: nat, x: real) returns (n: nat)
    requires x >= 0.0
    ensures var p := if id != WAVE && row.setPrecision > 0 then row.setPrecision else 2;
            row.setType == Double ==>
              NumberSent(row, id, x) == FixedPoint(n, p) && n as real - 0.5 <= Scaled(x, p) < n as real + 0.5
    ensures row.setType != Double ==> NumberSent(row, id, x) == Digits(n) && n as real <= x < n as real + 1.0
  {
    hide FixedPoint, Digits, Scaled;
    var p := if id != WAVE && row.setPrecision > 0 then row.setPrecision else 2;
    n := if row.setType == Double then (Scaled(x, p) + 0.5).Floor else x.Floor;
  }

  /** The bytes of the two lines: letters, then a number and a newline, or two newlines. */
  lemma LineBytes(row: Translator, channel: nat, id: nat, v: real)
    requires channel <= CHANNELS && id < PARAMETER_COUNT && Defined(row, id, v)
    ensures var w := WriteLine(row, channel, id, v);
            |w| > 4 && w[0] == 'W' && w[1] == "MMF"[channel] && w[2] == "NNWFAOP"[id] && w[|w| - 1] == '\n'
    ensures var q := QueryLine(channel, id);
            |q| == 5 && q[0] == 'R' && q[1] == "MMF"[channel] && q[2] == "NNWFAOP"[id] && q[3] == q[4] == '\n'
  {
  }

  // ---------- the serial line ----------

  datatype Event =
    | Sent(line: string)
    | Asked(line: string, said: string)

  /** What is at the other end of the line: after any exchange it says something to a question. */
  type Voice = (seq<Event>, string) -> string

  /** The answers in log are what the voice says there, after all that has gone before. */
  ghost predicate Heard(says: Voice, before: seq<Event>, log: seq<Event>)
    decreases |log|
  {
    log == [] ||
    var n := |log| - 1;
    && Heard(says, before, log[..n])
    && (log[n].Asked? ==> log[n].said == says(before + log[..n], log[n].line))
  }

  lemma HeardMore(says: Voice, before: seq<Event>, log: seq<Event>, line: string, query: string, said: string)
    requires Heard(says, before, log) && said == says(before + log + [Sent(line)], query)
    ensures Heard(says, before, log + [Sent(line), Asked(query, said)])
  {
    var one := log + [Sent(line)];
    var two := log + [Sent(line), Asked(query, said)];
    assert one[..|log|] == log;
    assert two[..|log| + 1] == one;
    assert before + one == before + log + [Sent(line)];
  }

  /** One write and one read-back for each answer. */
  ghost function Rounds(line: string, query: string, replies: seq<string>): seq<Event> {
    if replies == [] then []
    else Rounds(line, query, replies[..|replies| - 1]) + [Sent(line), Asked(query, replies[|replies| - 1])]
  }

  /**
    The answers to one call of set with r retries: at least one and at most r + 1,
    all but the last differ from the target, and ok says whether the last one
    equals it; the driver gives up only when the retries are used up.
   */
  ghost predicate Judged(replies: seq<string>, row: Translator, target: real, r: int, ok: bool) {
    && 1 <= |replies| <= r + 1
    && (forall i :: 0 <= i < |replies| - 1 ==> ReadBack(row, replies[i]) != target)
    && (ok <==> ReadBack(row, replies[|replies| - 1]) == target)
    && (!ok ==> |replies| == r + 1)
  }

  /** What one call of set puts on the line. Without retries: one write and no question. */
  ghost predicate Exchange(log: seq<Event>, replies: seq<string>, row: Translator,
                           line: string, query: string, target: real, r: int, ok: bool) {
    if r <= 0 then log == [Sent(line)] && ok
    else log == Rounds(line, query, replies) && Judged(replies, row, target, r, ok)
  }

  /** uint32_t to int */
  function ToInt(w: Word): (i: int)
    ensures -0x8000_0000 <= i < 0x8000_0000 && i % 0x1_0000_0000 == w
  {
    if w < 0x8000_0000 then w else w - 0x1_0000_0000
  }

  class AwgFy {
    const table: seq<Translator>
    /** The generator. */
    const says: Voice
    var retryCount: Word
    /** Everything written to and read from the generator so far. */
    var serial: seq<Event>

    constructor (table: seq<Translator>, says: Voice, retries: Word)
      ensures this.table == table && this.says == says && retryCount == retries && serial == []
    {
      this.table := table;
      this.says := says;
      retryCount := retries;
      serial := [];
    }

    /** readBytesUntil('\n', response, 20) on what the generator says. */
    method ReadResponse(said: string) returns (reply: string)
      ensures reply <= said && |reply| <= 20 && '\n' !in reply
      ensures |reply| == 20 || |reply| == |said| || said[|reply|] == '\n'
      ensures reply == FirstLine(said)
    {
      var n := 0;
      while n < |said| && n < RESPONSE_LENGTH && said[n] != '\n'
        invariant n <= |said| && n <= RESPONSE_LENGTH && n <= Span(said, '\n', 0)
      {
        n := n + 1;
      }
      reply := said[..n];
    }

    /**
      Sets a parameter. Whatever the generator says, the line sees an Exchange;
      replies are what it says.
     */
    method Set(channel: Word, id: Word, v: real) returns (ok: bool, ghost log: seq<Event>, ghost replies: seq<string>)
      requires |table| == PARAMETER_COUNT && id != PARAMETER_COUNT
      requires channel <= CHANNELS && id < PARAMETER_COUNT ==> Defined(table[id], id, v)
      modifies this`serial
      ensures serial == old(serial) + log && Heard(says, old(serial), log)
      ensures channel > CHANNELS || id > PARAMETER_COUNT ==> !ok && log == []
      ensures channel <= CHANNELS && id < PARAMETER_COUNT ==>
                Exchange(log, replies, table[id], WriteLine(table[id], channel, id, v), QueryLine(channel, id),
                         Target(table[id], id, v), ToInt(retryCount), ok)
    {
      hide ReadBack, WriteLine, QueryLine, Target;
      log, replies := [], [];
      if channel > CHANNELS || id > PARAMETER_COUNT {
        return false, [], [];
      }
      var retries := ToInt(retryCount);
      var value, setValue := Adjust(table[id], id, v);
      var validate := retries > 0;
      ghost var line, query, before := WriteLine(table[id], channel, id, v), QueryLine(channel, id), serial;
      while true
        invariant serial == before + Rounds(line, query, replies)
        invariant Heard(says, before, Rounds(line, query, replies))
        invariant |replies| == ToInt(retryCount) - retries
        invariant if validate then retries >= 0 else replies == []
        invariant forall i :: 0 <= i < |replies| ==> ReadBack(table[id], replies[i]) != value
        decreases retries
      {
        Send(channel, id, v, value, setValue);
        ok := true;
        if validate {
          var got := Get(channel, id);
          ghost var reply := serial[|serial| - 1].said;
          HeardMore(says, before, Rounds(line, query, replies), line, query, reply);
          AddRound(before, line, query, replies, reply);
          replies := replies + [reply];
          ok := value == got;
        }
        if ok || retries <= 0 {
          break;
        }
        retries := retries - 1;
      }
      log := if validate then Rounds(line, query, replies) else [Sent(line)];
      assert !validate ==> Heard(says, before, [Sent(line)]) by {
        assert [Sent(line)][..0] == [];
      }
    }

    static lemma AddRound(before: seq<Event>, line: string, query: string, replies: seq<string>, reply: string)
      ensures Rounds(line, query, replies + [reply])
           == Rounds(line, query, replies) + [Sent(line), Asked(query, reply)]
      ensures before + Rounds(line, query, replies) + [Sent(line)] + [Asked(query, reply)]
           == before + Rounds(line, query, replies + [reply])
    {
      assert (replies + [reply])[..|replies|] == replies;
    }

    /** Limits the value to the precision of the row, and adjusts it to the desired units. */
    method Adjust(row: Translator, id: nat, v: real) returns (value: real, setValue: real)
      requires Defined(row, id, v)
      ensures value == Target(row, id, v)
      ensures row.setType != Boolean ==> setValue == SetValue(row, id, v)
    {
      if id == WAVE {
        return v, FY_SINE;
      }
      value := Limit(v, row.setPrecision);
      var p10 := Pow10(row.setExponent);
      setValue := Multiply(value, p10, row.setExponent);
    }

    static method Limit(v: real, precision: int) returns (value: real)
      requires CastDefined(Shifted(v, precision))
      ensures value == Quantised(v, precision)
    {
      var p10 := Pow10(precision);
      var scaled := Multiply(v, p10, precision);
      var units := Cast(scaled + 0.5);
      value := Divide(units as real, p10, precision);
    }

    static method Multiply(v: real, p10: real, ghost p: int) returns (value: real)
      requires p10 == PowerOfTen(p)
      ensures value == Scaled(v, Exponent(p))
    {
      PowerScales(v, p);
      value := v * p10;
    }

    static method Divide(v: real, p10: real, ghost p: int) returns (value: real)
      requires p10 == PowerOfTen(p)
      ensures value == Scaled(v, -Exponent(p))
    {
      PowerScales(v, p);
      value := v / p10;
    }

    /** The write half of a round: the command, the number and a newline. */
    method Send(channel: Word, id: Word, ghost v: real, value: real, setValue: real)
      requires |table| == PARAMETER_COUNT && channel <= CHANNELS && id < PARAMETER_COUNT
      requires Defined(table[id], id, v) && value == Target(table[id], id, v)
      requires table[id].setType != Boolean ==> setValue == SetValue(table[id], id, v)
      modifies this`serial
      ensures serial == old(serial) + [Sent(WriteLine(table[id], channel, id, v))]
    {
      var sent := if table[id].setType == Boolean then (if value == 0.0 then 0.0 else 1.0) else setValue;
      var number := NumberSent(table[id], id, sent);
      serial := serial + [Sent(['W', FY_CHANNELS[channel], FY_CODES[id]] + (number + "\n"))];
    }

    method Get(channel: Word, id: Word) returns (value: real)
      requires |table| == PARAMETER_COUNT && id != PARAMETER_COUNT
      modifies this`serial
      ensures channel > CHANNELS || id > PARAMETER_COUNT ==> value == 0.0 && serial == old(serial)
      ensures channel <= CHANNELS && id < PARAMETER_COUNT ==>
                && serial != []
                && var e := serial[|serial| - 1];
                && e.Asked? && serial == old(serial) + [Asked(QueryLine(channel, id), e.said)]
                && e.said == says(old(serial), QueryLine(channel, id))
                && value == ReadBack(table[id], e.said)
    {
      if channel > CHANNELS || id > PARAMETER_COUNT {
        return 0.0;
      }
      var query := ['R', FY_CHANNELS[channel], FY_CODES[id]] + "\n\n";
      var said := says(serial, query);
      var reply := ReadResponse(said);
      serial := serial + [Asked(query, said)];
      value := Rescale(table[id], ScanReal(reply));
    }

    /** The scaling and the reduction to a truth value in get. */
    method Rescale(row: Translator, number: Option<real>) returns (value: real)
      ensures value == Rescaled(row, number)
    {
      var p10 := Pow10(row.getExponent);
      value := Multiply(if number.Some? then number.value else -1.23, p10, row.getExponent);
      if row.getType == Boolean {
        value := if value == 0.0 then 0.0 else 1.0;
      }
    }
  }
}
