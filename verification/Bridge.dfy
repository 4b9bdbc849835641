/**
  From a SCPI line to the generator: the calls of the parser are made on the driver,
  and the driver talks to an FY6900.
 */
module Bridge {
  import opened Octets
  import opened Tokenizer
  import opened Numbers
  import opened Scpi
  import opened Grammar
  import opened RpcPackets
  import opened VxiRequests
  import opened AwgFy
  import opened Fy6900

  ghost predicate CallsDefined(calls: seq<SetCall>) {
    forall i :: 0 <= i < |calls| ==>
                  calls[i].id < PARAMETER_COUNT && Defined(FY6900[calls[i].id], calls[i].id, calls[i].value)
  }

  /** The state after a list of calls: each known channel stores the value under the key of its parameter. */
  ghost function Settle(g: Generator, calls: seq<SetCall>): Generator
    requires CallsDefined(calls)
    decreases |calls|
  {
    if calls == [] then g
    else
      var c := calls[0];
      Settle(if c.channel > CHANNELS then g
             else Generator(g.stored[KeyOf(c.channel, c.id) := StoredValue(c.id, c.value)]), calls[1..])
  }

  /** log is what one call of set with r retries puts on the line. */
  ghost predicate Drives(log: seq<Event>, c: SetCall, r: int)
    requires c.id < PARAMETER_COUNT && Defined(FY6900[c.id], c.id, c.value)
  {
    if c.channel > CHANNELS then log == []
    else
      exists replies, ok ::
        Exchange(log, replies, FY6900[c.id], WriteLine(FY6900[c.id], c.channel, c.id, c.value),
                 QueryLine(c.channel, c.id), Target(FY6900[c.id], c.id, c.value), r, ok)
  }

  ghost predicate DrivesAll(logs: seq<seq<Event>>, calls: seq<SetCall>, r: int)
    requires CallsDefined(calls)
  {
    |logs| == |calls| &&
    (calls == [] || (Drives(logs[0], calls[0], r) && DrivesAll(logs[1..], calls[1..], r)))
  }

  ghost function Flatten(logs: seq<seq<Event>>): seq<Event> {
    if logs == [] then [] else logs[0] + Flatten(logs[1..])
  }

  /** AWG_Server::set as the parser calls it, on the FY6900 driver. */
  method DriveCall(awg: AwgFy, c: SetCall) returns (ghost log: seq<Event>)
    requires awg.table == FY6900 && c.id < PARAMETER_COUNT && Defined(FY6900[c.id], c.id, c.value)
    modifies awg`serial
    ensures Drives(log, c, ToInt(awg.retryCount)) && awg.serial == old(awg.serial) + log
  {
    ghost var replies;
    var ok;
    ok, log, replies := awg.Set(c.channel, c.id, c.value);
  }

  lemma {:induction false} OneMoreLog(logs: seq<seq<Event>>, log: seq<Event>)
    ensures Flatten(logs + [log]) == Flatten(logs) + log
  {
    if logs == [] {
      assert logs + [log] == [log] && [log][1..] == [];
    } else {
      assert (logs + [log])[1..] == logs[1..] + [log];
      OneMoreLog(logs[1..], log);
    }
  }

  lemma DrivesFirst(logs: seq<seq<Event>>, calls: seq<SetCall>, r: int)
    requires CallsDefined(calls) && |logs| == |calls| > 0
    ensures DrivesAll(logs, calls, r) <==> Drives(logs[0], calls[0], r) && DrivesAll(logs[1..], calls[1..], r)
  {
  }

  lemma {:induction false} OneMoreDriven(logs: seq<seq<Event>>, calls: seq<SetCall>, r: int,
                                         log: seq<Event>, c: SetCall)
    requires CallsDefined(calls + [c]) && CallsDefined(calls) && CallsDefined([c])
    requires DrivesAll(logs, calls, r) && DrivesAll([log], [c], r)
    ensures DrivesAll(logs + [log], calls + [c], r)
    decreases |calls|
  {
    var logs', calls' := logs + [log], calls + [c];
    if calls == [] {
      assert logs' == [log] && calls' == [c];
    } else {
      assert logs'[1..] == logs[1..] + [log] && calls'[1..] == calls[1..] + [c];
      DrivesFirst(logs, calls, r);
      OneMoreDriven(logs[1..], calls[1..], r, log, c);
      DrivesFirst(logs', calls', r);
    }
  }

  lemma Associated(a: seq<Event>, b: seq<Event>, c: seq<Event>)
    ensures a + (b + c) == a + b + c
  {
  }

  /** The calls of the parser, one after the other, on the driver. */
  method DriveAll(awg: AwgFy, calls: seq<SetCall>) returns (ghost logs: seq<seq<Event>>)
    requires awg.table == FY6900 && CallsDefined(calls)
    modifies awg`serial
    ensures DrivesAll(logs, calls, ToInt(awg.retryCount)) && awg.serial == old(awg.serial) + Flatten(logs)
  {
    ghost var r, before := ToInt(awg.retryCount), awg.serial;
    logs := [];
    for i := 0 to |calls|
      invariant CallsDefined(calls[..i]) && DrivesAll(logs, calls[..i], r)
      invariant awg.serial == before + Flatten(logs)
    {
      logs := DriveNext(awg, calls, i, logs, before);
    }
    assert calls[..|calls|] == calls;
  }

  method DriveNext(awg: AwgFy, calls: seq<SetCall>, i: nat, ghost logs: seq<seq<Event>>, ghost before: seq<Event>)
    returns (ghost more: seq<seq<Event>>)
    requires awg.table == FY6900 && CallsDefined(calls) && i < |calls|
    requires CallsDefined(calls[..i]) && DrivesAll(logs, calls[..i], ToInt(awg.retryCount))
    requires awg.serial == before + Flatten(logs)
    modifies awg`serial
    ensures CallsDefined(calls[..i + 1]) && DrivesAll(more, calls[..i + 1], ToInt(awg.retryCount))
    ensures awg.serial == before + Flatten(more)
  {
    ghost var log := DriveCall(awg, calls[i]);
    more := logs + [log];
    DrivenOn(logs, calls, i, ToInt(awg.retryCount), log);
    OneMoreLog(logs, log);
    Associated(before, Flatten(logs), log);
  }

  lemma DrivenOn(logs: seq<seq<Event>>, calls: seq<SetCall>, i: nat, r: int, log: seq<Event>)
    requires CallsDefined(calls) && i < |calls| && CallsDefined(calls[..i]) && DrivesAll(logs, calls[..i], r)
    requires Drives(log, calls[i], r)
    ensures CallsDefined(calls[..i + 1]) && DrivesAll(logs + [log], calls[..i + 1], r)
  {
    assert calls[..i + 1] == calls[..i] + [calls[i]];
    OneDriven(log, calls[i], r);
    OneMoreDriven(logs, calls[..i], r, log, calls[i]);
  }

  lemma OneDriven(log: seq<Event>, c: SetCall, r: int)
    requires c.id < PARAMETER_COUNT && Defined(FY6900[c.id], c.id, c.value) && Drives(log, c, r)
    ensures CallsDefined([c]) && DrivesAll([log], [c], r)
  {
    assert [log][1..] == [] && [c][1..] == [];
  }

  lemma {:induction false} CallsSettle(g: Generator, calls: seq<SetCall>, logs: seq<seq<Event>>, r: int)
    requires CallsDefined(calls) && DrivesAll(logs, calls, r)
    ensures After(g, Flatten(logs)) == Settle(g, calls)
    decreases |calls|
  {
    if calls != [] {
      var c := calls[0];
      AfterConcat(g, logs[0], Flatten(logs[1..]));
      assert Drives(logs[0], c, r);
      if c.channel <= CHANNELS {
        var replies, ok :|
          Exchange(logs[0], replies, FY6900[c.id], WriteLine(FY6900[c.id], c.channel, c.id, c.value),
                   QueryLine(c.channel, c.id), Target(FY6900[c.id], c.id, c.value), r, ok);
        SetSettles(g, c.channel, c.id, c.value, logs[0], replies, r, ok);
      }
      CallsSettle(After(g, logs[0]), calls[1..], logs[1..], r);
    }
  }

  predicate Writes(c: SetCall, key: Key) {
    c.channel <= CHANNELS && c.id < PARAMETER_COUNT && KeyOf(c.channel, c.id) == key
  }

  /** The last call that writes a key. */
  ghost function LastFor(calls: seq<SetCall>, key: Key): (r: Option<SetCall>)
    ensures r.None? ==> forall c :: c in calls ==> !Writes(c, key)
    ensures r.Some? ==>
              exists i :: 0 <= i < |calls| && calls[i] == r.value && Writes(r.value, key)
                          && forall j :: i < j < |calls| ==> !Writes(calls[j], key)
  {
    if calls == [] then None
    else
      var r := LastFor(calls[1..], key);
      assert calls == [calls[0]] + calls[1..];
      assert forall i :: 0 < i < |calls| ==> calls[i] == calls[1..][i - 1];
      assert forall i :: 0 <= i < |calls| - 1 ==> calls[1..][i] == calls[i + 1];
      if r.Some? then r
      else if Writes(calls[0], key) then Some(calls[0])
      else None
  }

  /** A key keeps its value unless some call writes it, and then the last such call decides. */
  lemma {:induction false} LastWriteWins(g: Generator, calls: seq<SetCall>, key: Key)
    requires CallsDefined(calls)
    ensures var after, last := Settle(g, calls).stored, LastFor(calls, key);
            && (key in after <==> last.Some? || key in g.stored)
            && (last.Some? ==> last.value in calls && after[key] == StoredValue(last.value.id, last.value.value))
            && (last.None? && key in g.stored ==> after[key] == g.stored[key])
    decreases |calls|
  {
    if calls != [] {
      var c := calls[0];
      LastWriteWins(if c.channel > CHANNELS then g
                    else Generator(g.stored[KeyOf(c.channel, c.id) := StoredValue(c.id, c.value)]), calls[1..], key);
    }
  }

  /**
    End to end: parsing a printed line and driving its calls leaves the generator
    in the state that the settings of the line describe, and the other channel as
    it was, whatever it answers to the read-backs.
   */
  lemma EndToEnd(g: Generator, ch: Word, lines: seq<CommandLine>, logs: seq<seq<Event>>, r: int)
    requires forall line :: line in lines ==> ProperLine(line)
    requires CallsDefined(AllCalls(ch, lines))
    requires DrivesAll(logs, AllCalls(ch, lines), r)
    ensures TextDefined(Print(ch, lines)) && Parse(Print(ch, lines)).calls == AllCalls(ch, lines)
    ensures After(g, Flatten(logs)) == Settle(g, AllCalls(ch, lines))
    ensures forall key :: key in g.stored && (ch > CHANNELS || key.0 != if ch == 0 then 1 else ch) ==>
                            key in After(g, Flatten(logs)).stored
                            && After(g, Flatten(logs)).stored[key] == g.stored[key]
  {
    RoundTrip(ch, lines);
    var calls := AllCalls(ch, lines);
    CallsSettle(g, calls, logs, r);
    CallsInRange(Print(ch, lines));
    forall key | key in g.stored && (ch > CHANNELS || key.0 != if ch == 0 then 1 else ch)
      ensures key in Settle(g, calls).stored && Settle(g, calls).stored[key] == g.stored[key]
    {
      LastWriteWins(g, calls, key);
    }
  }

  // ---------- a DEV_WRITE with a printed line ----------

  function Newlines(k: nat): (s: string)
    ensures |s| == k && forall i :: 0 <= i < k ==> s[i] == '\n'
  {
    seq(k, _ => '\n')
  }

  lemma {:induction false} TrimmedText(text: seq<Octet>, s: seq<Octet>, k: nat)
    requires text != [] && text[|text| - 1] != '\n' && s == text + Newlines(k)
    ensures Trimmed(s) == text
  {
    if k > 0 {
      assert s[..|s| - 1] == text + Newlines(k - 1);
      TrimmedText(text, s[..|s| - 1], k - 1);
    }
  }

  lemma WholeText(text: seq<Octet>)
    requires NUL !in text
    ensures CText(text) == text
  {
    assert forall i :: 0 <= i < |text| ==> text[i] in text;
  }

  lemma TextOfWrite(b: Body, text: seq<Octet>, k: nat)
    requires HasWriteData(b) && b[60..60 + WriteLength(b)] == text + Newlines(k)
    requires NUL !in text && text != [] && text[|text| - 1] != '\n'
    ensures WriteText(b) == text
  {
    TrimmedText(text, b[60..60 + WriteLength(b)], k);
    WholeText(text);
  }

  /**
    A DEV_WRITE whose data is a printed line, with any newlines behind it, is in
    the domain and makes the calls of the line.
   */
  lemma PrintedWrite(b: Body, ch: Word, lines: seq<CommandLine>, k: nat)
    requires 60 <= |b| <= 252 && WordAt(b, 12) == 0x607AF && WordAt(b, 20) == 11
    requires WordAt(b, 56) <= 191 && 60 + WordAt(b, 56) <= |b|
    requires forall line :: line in lines ==> ProperLine(line)
    requires var text := Print(ch, lines); NUL !in text && text[|text| - 1] != '\n'
    requires b[60..60 + WordAt(b, 56)] == Print(ch, lines) + Newlines(k)
    ensures InDomain(b) && CallsOf(b) == AllCalls(ch, lines) && ChannelAfter(b, 0) == ch
    ensures ReadTypeAfter(b, NoRead) == if Asks(lines) then Parameters else NoRead
  {
    var text := Print(ch, lines);
    var data := b[60..60 + WriteLength(b)];
    assert data[..|text|] == text;
    TextOfWrite(b, data[..|text|], k);
    RoundTrip(ch, lines);
  }

  /**
    From the request to the generator: driving the calls of a printed line leaves
    an FY6900 with its settings, whatever it answers in between.
   */
  method DriveWrite(awg: AwgFy, b: Request, ghost ch: Word, ghost lines: seq<CommandLine>, ghost k: nat,
                    ghost g: Generator)
    requires awg.table == FY6900 && |b| >= 60 && WordAt(b, 12) == 0x607AF && WordAt(b, 20) == 11
    requires forall line :: line in lines ==> ProperLine(line)
    requires var text := Print(ch, lines); NUL !in text && text[|text| - 1] != '\n'
    requires 60 + WordAt(b, 56) <= |b| && b[60..60 + WordAt(b, 56)] == Print(ch, lines) + Newlines(k)
    requires CallsDefined(AllCalls(ch, lines))
    modifies awg`serial
    ensures After(g, awg.serial) == Settle(After(g, old(awg.serial)), AllCalls(ch, lines))
  {
    ghost var before := awg.serial;
    PrintedWrite(b, ch, lines, k);
    ghost var logs := DriveAll(awg, CallsOf(b));
    EndToEnd(After(g, before), ch, lines, logs, ToInt(awg.retryCount));
    AfterConcat(g, before, Flatten(logs));
  }
}
