/**
  The VXI server (vxi_server.cpp): the SCPI parser that tokenizes the request
  buffer in place, the replies, and the link that rotates through the ports.
 */
module VxiServer {
  import opened Octets
  import opened Tokenizer
  import opened Numbers
  import opened Scpi
  import opened Cyclic
  import opened RpcPackets
  import opened PacketBuffers
  import opened VxiRequests
  import opened LinkProtocol

  class VxiServer {
    /** vxi_read_buffer and vxi_send_buffer */
    const request: array<Octet>
    const response: array<Octet>
    /** awg_server.id() */
    const id: seq<Octet>
    var rwChannel: Word
    var readType: ReadType
    /** The calls of awg_server.set so far. */
    var calls: seq<SetCall>
    /** Whether client holds a connection, what is left to read from it and what was written to it. */
    var held: bool
    var input: seq<Octet>
    var output: seq<Octet>
    const vxiPort: CyclicWord
    /** The port of tcp_server. */
    var listening: Word
    /** The requests served on the current or, when none is held, the last connection. */
    ghost var served: seq<Request>

    ghost predicate Valid()
      reads this`held, this`listening, vxiPort
    {
      && request.Length == VXI_SIZE && response.Length == VXI_SIZE && request != response
      && IsId(id)
      && vxiPort.start == PORT_START && vxiPort.end == PORT_END && vxiPort.Valid()
      && Good(LinkState())
    }

    /** What was written is one reply to each request, in order. */
    ghost predicate Answered()
      reads this`output, this`served
    {
      IsId(id) && output == Replies(served, id)
    }

    ghost function LinkState(): Link
      reads this`held, this`listening, vxiPort
    {
      Link(held, vxiPort.data, listening)
    }

    /** The server as setup() leaves it after begin(). */
    constructor (id: seq<Octet>)
      requires IsId(id)
      ensures Valid() && Answered() && fresh(request) && fresh(response) && fresh(vxiPort)
      ensures LinkState() == Link(false, PORT_START, PORT_START)
      ensures this.id == id && calls == [] && served == [] && rwChannel == 0 && readType == NoRead
    {
      request := new Octet[VXI_SIZE];
      response := new Octet[VXI_SIZE];
      this.id := id;
      rwChannel, readType, calls := 0, NoRead, [];
      held, input, output := false, [], [];
      vxiPort := new CyclicWord(PORT_START, PORT_END, 0);
      listening := PORT_START;
      served := [];
    }

    // ---------- the link ----------

    /** The port to announce, or 0 while a client is held. */
    method Allocate() returns (port: Word)
      requires Valid()
      ensures port == if held then 0 else listening
    {
      port := if held then 0 else vxiPort.data;
    }

    /** begin(true): drop the client and listen on the next port. */
    method BeginNext()
      requires Valid() && held
      modifies this`held, this`input, this`listening, vxiPort
      ensures Valid()
      ensures LinkState() == Step(old(LinkState()), Serve(true)) && input == []
    {
      held, input := false, [];
      var _ := vxiPort.PostIncrement();
      listening := vxiPort.data % 0x1_0000;
    }

    /** The stream starts with a record that holds a request of the domain. */
    static ghost predicate AtRequest(input: seq<Octet>, last: bool, body: Request, rest: seq<Octet>) {
      input == Marked(last, body) + rest
    }

    /**
      loop(): a held client's next request is answered and a DESTROY_LINK ends the
      connection; without a client an arriving one is accepted. last, body and
      rest are the parts of what a held client has sent.
     */
    method Loop(arrival: Option<seq<Octet>>, ghost last: bool, ghost body: Request, ghost rest: seq<Octet>)
      requires Valid() && Answered()
      requires held && input != [] ==> AtRequest(input, last, body, rest)
      modifies this, request, response, vxiPort
      ensures Valid() && Answered()
      ensures old(held && input != []) ==>
                && LinkState() == Step(old(LinkState()), Serve(Is(body, DESTROY_LINK)))
                && served == old(served) + [body] && calls == old(calls) + CallsOf(body)
                && rwChannel == ChannelAfter(body, old(rwChannel)) && readType == ReadTypeAfter(body, old(readType))
                && input == if held then rest else []
      ensures old(held && input == []) ==>
                LinkState() == old(LinkState()) && served == old(served) && calls == old(calls) && input == []
      ensures old(!held || input == []) ==> rwChannel == old(rwChannel) && readType == old(readType)
      ensures old(!held) ==>
                && LinkState() == (if arrival.Some? then Step(old(LinkState()), Arrive) else old(LinkState()))
                && calls == old(calls)
                && (arrival.Some? ==> served == [] && input == arrival.value)
                && (arrival.None? ==> served == old(served) && input == old(input))
    {
      if held {
        ServeClient(last, body, rest);
      } else if arrival.Some? {
        held, input, output, served := true, arrival.value, [], [];
      }
    }

    /** The branch of loop() for a held client. */
    method ServeClient(ghost last: bool, ghost body: Request, ghost rest: seq<Octet>)
      requires Valid() && Answered() && held
      requires input != [] ==> AtRequest(input, last, body, rest)
      modifies this, request, response, vxiPort
      ensures Valid() && Answered()
      ensures old(input) != [] ==>
                && LinkState() == Step(old(LinkState()), Serve(Is(body, DESTROY_LINK)))
                && served == old(served) + [body] && calls == old(calls) + CallsOf(body)
                && rwChannel == ChannelAfter(body, old(rwChannel)) && readType == ReadTypeAfter(body, old(readType))
                && input == if held then rest else []
      ensures old(input) == [] ==>
                && LinkState() == old(LinkState()) && served == old(served) && calls == old(calls) && input == []
                && rwChannel == old(rwChannel) && readType == old(readType)
    {
      ghost var before := input;
      var len;
      len, input := GetPacket(request, input);
      if before == [] {
        EmptyStream();
      } else {
        RequestFound(before, last, body, rest);
      }
      if len > 0 {
        ServeRequest(body);
      }
    }

    /** handle_packet, and the end of the connection it may ask for. */
    method ServeRequest(ghost body: Request)
      requires Valid() && Answered() && held && request[4..4 + |body|] == body
      modifies this, request, response, vxiPort
      ensures Valid() && Answered()
      ensures LinkState() == Step(old(LinkState()), Serve(Is(body, DESTROY_LINK)))
      ensures served == old(served) + [body] && calls == old(calls) + CallsOf(body)
      ensures rwChannel == ChannelAfter(body, old(rwChannel)) && readType == ReadTypeAfter(body, old(readType))
      ensures input == if held then old(input) else []
    {
      var close := HandlePacket(body);
      assert LinkState() == old(LinkState());
      if close {
        BeginNext();
      }
    }

    static lemma EmptyStream()
      ensures Announced([]) == 0
    {
      assert Received(Zeros(4), [], 4) == XdrWord(0);
      WordRoundTrip(0);
    }

    /** What a record of the domain leaves for get_vxi_packet to find. */
    static lemma RequestFound(input: seq<Octet>, last: bool, body: Request, rest: seq<Octet>)
      requires AtRequest(input, last, body, rest)
      ensures Announced(input) == |body| && |input| >= 4 + |body|
      ensures input[4..4 + |body|] == body && input[Min(4 + |body|, |input|)..] == rest
    {
      MarkRead(last, body, rest);
    }

    // ---------- requests and replies ----------

    /** Answers the request in the buffer and says whether the connection ends. */
    method HandlePacket(ghost body: Request) returns (close: bool)
      requires Valid() && Answered() && request[4..4 + |body|] == body
      modifies this`rwChannel, this`readType, this`calls, this`output, this`served, request, response
      ensures Answered()
      ensures served == old(served) + [body] && calls == old(calls) + CallsOf(body)
      ensures rwChannel == ChannelAfter(body, old(rwChannel)) && readType == ReadTypeAfter(body, old(readType))
      ensures close <==> Is(body, DESTROY_LINK)
      ensures close <==> WordAt(body, 12) == 0x607AF && WordAt(body, 20) == 23
    {
      close := Dispatch(body);
      OneMore(served, body, id);
      served := served + [body];
    }

    static lemma OneMore(served: seq<Request>, body: Request, id: seq<Octet>)
      requires IsId(id)
      ensures Replies(served + [body], id) == Replies(served, id) + ReplyFrame(body, id)
    {
      assert (served + [body])[..|served|] == served;
    }

    /** The branches of handle_packet: whatever the request, its reply goes out, and nothing else. */
    method Dispatch(ghost body: Request) returns (close: bool)
      requires Valid() && request[4..4 + |body|] == body
      modifies this`rwChannel, this`readType, this`calls, this`output, request, response
      ensures output == old(output) + ReplyFrame(body, id)
      ensures SendsReply(output[|old(output)|..], body, id)
      ensures calls == old(calls) + CallsOf(body)
      ensures rwChannel == ChannelAfter(body, old(rwChannel)) && readType == ReadTypeAfter(body, old(readType))
      ensures close <==> WordAt(body, 12) == 0x607AF && WordAt(body, 20) == 23
    {
      ghost var before := output;
      close := false;
      var program := GetField(12, body);
      if program != VXI_11_CORE {
        SendStatus(PROG_UNAVAIL, body);
      } else {
        close := DispatchProcedure(body);
      }
      FrameSends(body, id);
      assert output[|before|..] == ReplyFrame(body, id);
    }

    /** The switch over the procedures of the VXI-11 program. */
    method DispatchProcedure(ghost body: Request) returns (close: bool)
      requires Valid() && request[4..4 + |body|] == body && Program(body) == VXI_11_CORE
      modifies this`rwChannel, this`readType, this`calls, this`output, request, response
      ensures output == old(output) + ReplyFrame(body, id)
      ensures calls == old(calls) + CallsOf(body)
      ensures rwChannel == ChannelAfter(body, old(rwChannel)) && readType == ReadTypeAfter(body, old(readType))
      ensures close <==> WordAt(body, 20) == 23
    {
      close := false;
      var procedure := GetField(20, body);
      if procedure == CREATE_LINK {
        SendCreateLink(body);
      } else if procedure == DEV_READ {
        SendRead(body);
      } else if procedure == DEV_WRITE {
        SendWrite(body);
      } else if procedure == DESTROY_LINK {
        SendDestroyLink(body);
        close := true;
      } else {
        SendStatus(PROC_UNAVAIL, body);
      }
    }

    /** A field of the request. */
    method GetField(at: nat, ghost body: Request) returns (w: Word)
      requires Valid() && request[4..4 + |body|] == body && at + 4 <= |body|
      ensures w == WordAt(body, at)
    {
      w := GetWord(request, 4 + at);
      FieldInside(request[..], 4, body, at);
      assert request[..][4 + at..8 + at] == request[4 + at..8 + at];
    }

    /** send_vxi_packet */
    method Send(len: nat, ghost r: Reply, ghost body: Request)
      requires Valid() && request[4..8] == body[0..4]
      requires r.DataRead? ==> |r.data| <= 215
      requires len == 20 + |Results(r)| && len + Padding(len) <= VXI_SIZE - 4
      requires response[24..4 + len] == Results(r)
      modifies this`output, response
      ensures output == old(output) + Packet(Xid(body), r)
    {
      var xid := GetWord(request, 4);
      var sent := SendPacket(response, xid, len, Results(r));
      output := output + sent;
    }

    static lemma XidBytes(b: seq<Octet>, body: Request)
      requires |b| == VXI_SIZE && b[4..4 + |body|] == body
      ensures b[4..8] == body[0..4]
    {
      FieldInside(b, 4, body, 0);
    }

    /** Assigning the next word of the results. */
    method PutResult(ghost ws: seq<Word>, at: nat, w: Word)
      requires Valid() && at + 4 <= VXI_SIZE && at == 24 + 4 * |ws| && response[24..at] == Words(ws)
      modifies response
      ensures response[24..at + 4] == Words(ws + [w])
    {
      PutNext(response, 24, ws, at, w);
    }

    /** send_vxi_packet for results that are the words ws. */
    method SendWords(ghost ws: seq<Word>, len: nat, ghost r: Reply, ghost body: Request)
      requires Valid() && request[4..8] == body[0..4]
      requires !r.DataRead? && StatusWords(r) == ws && len == 20 + 4 * |ws| <= VXI_SIZE - 4
      requires response[24..4 + len] == Words(ws)
      modifies this`output, response
      ensures output == old(output) + Packet(Xid(body), r)
    {
      WholeWords(r, len);
      Send(len, r, body);
    }

    static lemma WholeWords(r: Reply, len: nat)
      requires !r.DataRead? && len == 20 + 4 * |StatusWords(r)|
      ensures Results(r) == Words(StatusWords(r)) && Padding(len) == 0
    {
      assert len % 4 == 0;
    }

    static lemma ResultSteps(n: Word)
      ensures [] + [SUCCESS] == [SUCCESS] && [SUCCESS] + [0] == [SUCCESS, 0] && [SUCCESS, 0] + [0] == [SUCCESS, 0, 0]
      ensures [SUCCESS, 0, 0] + [0] == [SUCCESS, 0, 0, 0] && [SUCCESS, 0] + [END_REASON] == [SUCCESS, 0, END_REASON]
      ensures [SUCCESS, 0] + [n] == [SUCCESS, 0, n] && [SUCCESS, 0, 0, 0] + [n] == [SUCCESS, 0, 0, 0, n]
      ensures [SUCCESS, 0, END_REASON] + [n] == [SUCCESS, 0, END_REASON, n]
    {
    }

    method SendStatus(status: Word, ghost body: Request)
      requires Valid() && request[4..4 + |body|] == body
      modifies this`output, response
      ensures output == old(output) + Packet(Xid(body), Refused(status))
    {
      XidBytes(request[..], body);
      PutResult([], 24, status);
      assert [] + [status] == [status];
      SendWords([status], 24, Refused(status), body);
    }

    method SendDestroyLink(ghost body: Request)
      requires Valid() && request[4..4 + |body|] == body
      modifies this`output, response
      ensures output == old(output) + Packet(Xid(body), LinkDestroyed)
    {
      XidBytes(request[..], body);
      ResultSteps(0);
      PutResult([], 24, SUCCESS);
      PutResult([SUCCESS], 28, 0);
      SendWords([SUCCESS, 0], 28, LinkDestroyed, body);
    }

    method SendCreateLink(ghost body: Request)
      requires Valid() && request[4..4 + |body|] == body && Is(body, CREATE_LINK)
      modifies this`output, request, response
      ensures output == old(output) + Packet(Xid(body), LinkCreated(0, 0, VXI_SIZE - 4))
    {
      XidBytes(request[..], body);
      var dataLen := GetField(52, body);
      request[60 + dataLen] := NUL;
      SendCreated(body);
    }

    method SendCreated(ghost body: Request)
      requires Valid() && request[4..8] == body[0..4]
      modifies this`output, response
      ensures output == old(output) + Packet(Xid(body), LinkCreated(0, 0, VXI_SIZE - 4))
    {
      ResultSteps(VXI_SIZE - 4);
      PutResult([], 24, SUCCESS);
      PutResult([SUCCESS], 28, 0);
      PutResult([SUCCESS, 0], 32, 0);
      PutResult([SUCCESS, 0, 0], 36, 0);
      PutResult([SUCCESS, 0, 0, 0], 40, VXI_SIZE - 4);
      SendWords([SUCCESS, 0, 0, 0, VXI_SIZE - 4], 40, LinkCreated(0, 0, VXI_SIZE - 4), body);
    }

    method SendRead(ghost body: Request)
      requires Valid() && request[4..4 + |body|] == body
      modifies this`output, response
      ensures output == old(output) + Packet(Xid(body), DataRead(END_REASON, id))
    {
      XidBytes(request[..], body);
      ResultSteps(|id|);
      PutResult([], 24, SUCCESS);
      PutResult([SUCCESS], 28, 0);
      PutResult([SUCCESS, 0], 32, END_REASON);
      PutResult([SUCCESS, 0, END_REASON], 36, |id|);
      CopyString(40, id);
      assert response[24..40 + |id|] == response[24..40] + response[40..40 + |id|];
      Send(36 + |id|, DataRead(END_REASON, id), body);
    }

    /** strcpy into the response, with the terminator. */
    method CopyString(at: nat, s: seq<Octet>)
      requires at + |s| < response.Length
      modifies response
      ensures response[at..at + |s|] == s && response[..at] == old(response[..at])
    {
      for i := 0 to |s|
        invariant response[at..at + i] == s[..i] && response[..at] == old(response[..at])
      {
        response[at + i] := s[i];
      }
      response[at + |s|] := NUL;
    }

    /** write(): the text is cut off at its newlines, parsed in place, and acknowledged. */
    method SendWrite(ghost body: Request)
      requires Valid() && request[4..4 + |body|] == body && Is(body, DEV_WRITE)
      modifies this`rwChannel, this`readType, this`calls, this`output, request, response
      ensures output == old(output) + Packet(Xid(body), DataWritten(WriteLength(body)))
      ensures calls == old(calls) + CallsOf(body)
      ensures rwChannel == ChannelAfter(body, old(rwChannel)) && readType == ReadTypeAfter(body, old(readType))
    {
      var wlen := GetField(56, body);
      XidBytes(request[..], body);
      ghost var head := request[..64];
      assert head[4..8] == request[4..8];
      ParseData(wlen, body);
      assert request[4..8] == request[..64][4..8];
      SendWritten(wlen, body);
    }

    method SendWritten(wlen: Word, ghost body: Request)
      requires Valid() && request[4..8] == body[0..4]
      modifies this`output, response
      ensures output == old(output) + Packet(Xid(body), DataWritten(wlen))
    {
      ResultSteps(wlen);
      PutResult([], 24, SUCCESS);
      PutResult([SUCCESS], 28, 0);
      PutResult([SUCCESS, 0], 32, wlen);
      SendWords([SUCCESS, 0, wlen], 32, DataWritten(wlen), body);
    }

    /** The text of the request is terminated and parsed where it stands. */
    method ParseData(wlen: nat, ghost body: Request)
      requires Valid() && request[4..4 + |body|] == body && Is(body, DEV_WRITE) && wlen == WriteLength(body)
      modifies this`rwChannel, this`readType, this`calls, request
      ensures calls == old(calls) + CallsOf(body)
      ensures rwChannel == ChannelAfter(body, old(rwChannel)) && readType == ReadTypeAfter(body, old(readType))
      ensures request[..64] == old(request[..64])
    {
      ghost var text := WriteText(body);
      EndText(wlen, body);
      ghost var ready := request[..];
      assert TextDefined(ready[64..64 + |text|]);
      ParseScpi(64, 64 + |text|);
      HeadKept(ready, request[..], 64 + |text|);
    }

    static lemma HeadKept(before: seq<Octet>, after: seq<Octet>, hi: nat)
      requires |before| == |after| == VXI_SIZE && CutsOnly(before, after, 64, hi)
      ensures after[..64] == before[..64]
    {
    }

    /** The newlines at the end are left off and the terminator is put in. */
    method EndText(wlen: nat, ghost body: Request)
      requires Valid() && request[4..4 + |body|] == body && Is(body, DEV_WRITE) && wlen == WriteLength(body)
      modifies request
      ensures request[..64] == old(request[..64])
      ensures IsCString(request[..], 64, 64 + |WriteText(body)|)
      ensures request[..][64..64 + |WriteText(body)|] == WriteText(body)
    {
      ghost var data := body[60..60 + wlen];
      DataBytes(request[..], body);
      var len := TrimData(wlen);
      ghost var before := request[..];
      assert before[64..64 + wlen] == data;
      request[64 + len] := NUL;
      TerminatorOnly(before, request[..], len, Trimmed(data));
      TextEnds(request[..], len, Trimmed(data));
    }

    static lemma TerminatorOnly(before: seq<Octet>, after: seq<Octet>, len: nat, trimmed: seq<Octet>)
      requires |before| > 64 + len && after == before[64 + len := NUL] && before[64..64 + len] == trimmed
      ensures after[..64] == before[..64] && after[64..64 + len] == trimmed && after[64 + len] == NUL
    {
    }

    static lemma DataBytes(b: seq<Octet>, body: Request)
      requires |b| == VXI_SIZE && b[4..4 + |body|] == body && Is(body, DEV_WRITE)
      ensures HasWriteData(body)
      ensures b[64..64 + WriteLength(body)] == body[60..60 + WriteLength(body)]
    {
      var n := WriteLength(body);
      forall k | 64 <= k < 64 + n ensures b[k] == body[k - 4] {
        assert b[4..4 + |body|][k - 4] == b[k];
      }
    }

    /** The newlines at the end of the data are not part of the text. */
    method TrimData(wlen: nat) returns (len: nat)
      requires 64 + wlen <= request.Length
      ensures len == |Trimmed(request[64..64 + wlen])|
    {
      len := wlen;
      while len > 0 && request[64 + len - 1] == '\n'
        invariant len <= wlen
        invariant Trimmed(request[64..64 + wlen]) == Trimmed(request[64..64 + len])
      {
        assert request[64..64 + len][..len - 1] == request[64..64 + len - 1];
        len := len - 1;
      }
    }

    static lemma TextEnds(b: seq<Octet>, len: nat, trimmed: seq<Octet>)
      requires |b| > 64 + len && b[64..64 + len] == trimmed && b[64 + len] == NUL
      ensures var end := 64 + |CText(trimmed)|; IsCString(b, 64, end) && b[64..end] == CText(trimmed)
    {
      var k := Span(trimmed, NUL, 0);
      assert forall i :: 0 <= i < len ==> b[64 + i] == trimmed[i];
      assert b[64..64 + k] == trimmed[..k];
    }

    // ---------- the SCPI parser ----------

    /** strncmp(text, entry, strlen(entry)) == 0 */
    method StartsWith(start: nat, ghost end: nat, entry: string) returns (r: bool)
      requires IsCString(request[..], start, end)
      requires forall i :: 0 <= i < |entry| ==> entry[i] != NUL
      ensures r <==> entry <= request[start..end]
    {
      ghost var text := request[start..end];
      var i := 0;
      while i < |entry|
        invariant 0 <= i <= |entry| && i <= |text|
        invariant entry[..i] == text[..i]
      {
        assert entry <= text ==> entry[i] == text[i];
        if request[start + i] != entry[i] {
          return false;
        }
        i := i + 1;
      }
      return true;
    }

    method GetId(start: nat, ghost end: nat, list: seq<string>) returns (id: int)
      requires IsCString(request[..], start, end)
      requires Free(list, NUL)
      ensures id == MatchId(request[start..end], list)
    {
      id := -1;
      var i := 0;
      while i < |list|
        invariant 0 <= i <= |list|
        invariant forall j :: 0 <= j < i ==> !(list[j] <= request[start..end])
      {
        var found := StartsWith(start, end, list[i]);
        if found {
          id := i;
          break;
        }
        i := i + 1;
      }
    }

    /** Sets the generator for each ON, OFF or name-value pair of a command line, whose rest is cut up in place. */
    method ProcessParameters(parameterContext: nat, ghost end: nat)
      requires IsCString(request[..], parameterContext, end)
      requires ParamsDefined(Tokens(request[..][parameterContext..end], ','), None)
      modifies this`calls, request
      ensures calls == old(calls) + ParamCalls(rwChannel, Tokens(old(request[..])[parameterContext..end], ','), None)
      ensures CutsOnly(old(request[..]), request[..], parameterContext, end)
    {
      var context := parameterContext;
      var value: Option<real> := None;
      var more := true;
      ghost var toks := Tokens(request[..][context..end], ',');
      ghost var original, all, before := request[..], ParamCalls(rwChannel, toks, None), calls;
      while more
        invariant IsCString(request[..], context, end) && parameterContext <= context
        invariant CutsOnly(original, request[..], parameterContext, end)
        invariant toks == Tokens(request[..][context..end], ',')
        invariant ParamsDefined(toks, value)
        invariant before + all == calls + ParamCalls(rwChannel, toks, value)
        invariant !more ==> toks == []
        decreases more, end - context
      {
        more, context, value, toks := ProcessParameter(context, value, toks, parameterContext, end, original);
      }
    }

    /** One round of the loop of process_parameters: the next parameter, its value and the call they make. */
    method ProcessParameter(parameterContext: nat, value: Option<real>,
                            ghost toks: seq<string>, ghost lo: nat, ghost end: nat, ghost original: seq<Octet>)
      returns (more: bool, context: nat, newValue: Option<real>, ghost rest: seq<string>)
      requires IsCString(request[..], parameterContext, end) && lo <= parameterContext
      requires CutsOnly(original, request[..], lo, end)
      requires toks == Tokens(request[..][parameterContext..end], ',') && ParamsDefined(toks, value)
      modifies this`calls, request
      ensures IsCString(request[..], context, end) && parameterContext <= context
      ensures CutsOnly(original, request[..], lo, end)
      ensures rest == Tokens(request[..][context..end], ',') && ParamsDefined(rest, newValue)
      ensures more <==> toks != []
      ensures more ==> parameterContext < context
      ensures !more ==> rest == []
      ensures old(calls) + ParamCalls(rwChannel, toks, value) == calls + ParamCalls(rwChannel, rest, newValue)
    {
      var parameter;
      ghost var e;
      parameter, context, e := NextToken(parameterContext, ',', lo, end, original);
      if parameter.None? {
        return false, context, value, toks;
      }
      TablesAreFree(NUL);
      var id := GetId(parameter.value, e, PARAMETERS);
      rest := toks[Taken(toks)..];
      newValue := value;
      if id >= 0 {
        context, newValue := ReadSetting(id, context, value, toks, lo, end, original);
        Regroup(calls, [SetCall(rwChannel, id, newValue.value)], ParamCalls(rwChannel, rest, newValue));
        calls := calls + [SetCall(rwChannel, id, newValue.value)];
      } else {
        Regroup(calls, [], ParamCalls(rwChannel, rest, newValue));
      }
      more := true;
    }

    /** The value of a known parameter: ON and OFF need none, a wave name is dropped, the others are numbers. */
    method ReadSetting(id: nat, parameterContext: nat, value: Option<real>,
                       ghost toks: seq<string>, ghost lo: nat, ghost end: nat, ghost original: seq<Octet>)
      returns (context: nat, newValue: Option<real>)
      requires IsCString(request[..], parameterContext, end)
      requires lo <= parameterContext && CutsOnly(original, request[..], lo, end)
      requires toks != [] && id == ParamId(toks) && ParamsDefined(toks, value)
      requires Tokens(request[..][parameterContext..end], ',') == toks[1..]
      modifies request
      ensures parameterContext <= context && IsCString(request[..], context, end)
      ensures CutsOnly(original, request[..], lo, end)
      ensures newValue == NewValue(toks, value)
      ensures Tokens(request[..][context..end], ',') == toks[Taken(toks)..]
    {
      if id <= OUTPUT_ON {
        return parameterContext, Some(id as real);
      }
      assert toks[Taken(toks)..] == toks[1..][Min(1, |toks| - 1)..];
      var sVal;
      ghost var e;
      sVal, context, e := NextToken(parameterContext, ',', lo, end, original);
      if id == WAVE {
        newValue := Some(SINE);
      } else {
        newValue := ReadValue(sVal.value, e, value);
      }
    }

    static lemma Regroup<T>(a: seq<T>, b: seq<T>, c: seq<T>)
      ensures a + (b + c) == a + b + c
      ensures a + [] == a && [] + c == c
    {
    }

    /** sscanf(s_val, "%lf", &value) */
    method ReadValue(start: nat, ghost end: nat, value: Option<real>) returns (r: Option<real>)
      requires IsCString(request[..], start, end)
      ensures r == Reading(request[start..end], value)
    {
      var z := CStringEnd(request, start, end);
      r := Reading(request[start..z], value);
    }

    /**
      One call of strtok_r on the request, with what it means for the tokens that
      are left; original is the request before the cuts made so far in lo..end.
     */
    method NextToken(start: nat, d: Octet, ghost lo: nat, ghost end: nat, ghost original: seq<Octet>)
      returns (token: Option<nat>, context: nat, ghost e: nat)
      requires IsCString(request[..], start, end) && IsDelimiter(d)
      requires lo <= start && CutsOnly(original, request[..], lo, end)
      modifies request
      ensures start <= context && IsCString(request[..], context, end)
      ensures CutsOnly(original, request[..], lo, end)
      ensures forall k :: 0 <= k < request.Length && !(start <= k < context) ==> request[k] == old(request[k])
      ensures token.Some? <==> HasToken(old(request[..])[start..end], d)
      ensures var toks := Tokens(old(request[..])[start..end], d);
              && (token.Some? <==> toks != [])
              && Tokens(request[..][context..end], d) == toks[Min(1, |toks|)..]
              && (token.Some? ==>
                    && start <= token.value < e <= end && start < context && e <= context
                    && IsCString(request[..], token.value, e)
                    && request[token.value..e] == Head(old(request[..])[start..end], d) == toks[0]
                    && request[..][context..end] == Tail(old(request[..])[start..end], d))
    {
      ghost var before := request[..];
      e := HeadEnd(before, start, d, end);
      token, context := StrtokR(request, start, d, end);
      TokensLeft(before, start, d, end);
      if token.Some? {
        CutHead(before, start, d, end);
        assert request[token.value..e] == request[..][token.value..e];
      } else {
        assert request[..][context..end] == [];
      }
    }

    /** The tokens of a text in the request are its head and the tokens of its tail. */
    static lemma TokensLeft(b: seq<Octet>, start: nat, d: Octet, end: nat)
      requires start <= end <= |b|
      ensures var s, toks := b[start..end], Tokens(b[start..end], d);
              && Tokens([], d) == []
              && (HasToken(s, d) <==> toks != [])
              && (HasToken(s, d) ==> toks[0] == Head(s, d) && toks[1..] == Tokens(Tail(s, d), d))
    {
      NoTokens(d);
      FirstToken(b[start..end], d);
    }

    /**
      parse_scpi: the text at start is tokenized in place. The channel, the read
      type and the calls are those the text means, and only delimiters of the
      text are overwritten.
     */
    method ParseScpi(start: nat, ghost end: nat)
      requires IsCString(request[..], start, end)
      requires TextDefined(request[..][start..end])
      modifies this`rwChannel, this`readType, this`calls, request
      ensures var o := Parse(old(request[..])[start..end]);
              rwChannel == o.channel && readType == o.readType && calls == old(calls) + o.calls
      ensures CutsOnly(old(request[..]), request[..], start, end)
    {
      ghost var original, text := request[..], request[..][start..end];
      rwChannel, readType := 0, NoRead;
      var initiator, context;
      ghost var e;
      initiator, context, e := NextToken(start, ':', start, end, original);
      TablesAreFree(NUL);
      var id := GetId(initiator.value, e, INITIATORS);
      if id == ID_REQUEST {
        readType := Identification;
        return;
      } else if id != CHANNEL {
        return;
      }
      ReadChannel(initiator.value, e);

      var more := true;
      ghost var lines, before := Lines(text), calls;
      while more
        invariant start <= context && IsCString(request[..], context, end)
        invariant CutsOnly(original, request[..], start, end)
        invariant lines == Tokens(request[..][context..end], ';') && LinesDefined(lines)
        invariant before + LinesCalls(rwChannel, Lines(text)) == calls + LinesCalls(rwChannel, lines)
        invariant rwChannel == ChannelOf(Head(text, ':'))
        invariant readType == NoRead || readType == Parameters
        invariant AnyQuery(Lines(text)) <==> readType == Parameters || AnyQuery(lines)
        invariant !more ==> lines == []
        decreases more, end - context
      {
        more, context, lines := ProcessCommandLine(context, lines, start, end, original);
      }
    }

    /** sscanf(initiator+1, "%d", &rw_channel) */
    method ReadChannel(initiator: nat, ghost end: nat)
      requires IsCString(request[..], initiator, end) && initiator < end && rwChannel == 0
      modifies this`rwChannel
      ensures rwChannel == ChannelOf(request[initiator..end])
    {
      var z := CStringEnd(request, initiator + 1, end);
      assert request[initiator..end][1..] == request[initiator + 1..end];
      var n := ScanInt(request[initiator + 1..z]);
      if n.Some? {
        rwChannel := n.value % 0x1_0000_0000;
      }
    }

    /** One round of the loop of parse_scpi. */
    method ProcessCommandLine(commandContext: nat, ghost lines: seq<string>,
                              ghost lo: nat, ghost end: nat, ghost original: seq<Octet>)
      returns (more: bool, context: nat, ghost rest: seq<string>)
      requires IsCString(request[..], commandContext, end) && lo <= commandContext
      requires CutsOnly(original, request[..], lo, end)
      requires lines == Tokens(request[..][commandContext..end], ';') && LinesDefined(lines)
      modifies this`readType, this`calls, request
      ensures IsCString(request[..], context, end) && commandContext <= context
      ensures CutsOnly(original, request[..], lo, end)
      ensures rest == Tokens(request[..][context..end], ';') && LinesDefined(rest)
      ensures more <==> lines != []
      ensures more ==> commandContext < context
      ensures !more ==> rest == []
      ensures old(calls) + LinesCalls(rwChannel, lines) == calls + LinesCalls(rwChannel, rest)
      ensures readType == if lines != [] && CommandId(lines[0]) == GET_PARAMETERS then Parameters
                          else old(readType)
      ensures AnyQuery(lines) <==> (lines != [] && CommandId(lines[0]) == GET_PARAMETERS) || AnyQuery(rest)
    {
      var commandLine;
      ghost var e;
      commandLine, context, e := NextToken(commandContext, ';', lo, end, original);
      rest := lines[Min(1, |lines|)..];
      if commandLine.None? {
        return false, context, rest;
      }
      ghost var tail := request[..][context..end];
      ghost var cut := request[..];
      ProcessCommand(commandLine.value, e, lines[0]);
      CutsCompose(original, cut, request[..], lo, end, commandLine.value, e);
      assert request[..][context..end] == tail;
      Regroup(old(calls), LineCalls(rwChannel, lines[0]), LinesCalls(rwChannel, rest));
      more := true;
    }

    /** The body of that round: the command of one line is recognised and obeyed. */
    method ProcessCommand(commandLine: nat, ghost end: nat, ghost line: string)
      requires IsCString(request[..], commandLine, end)
      requires line == request[..][commandLine..end] && LineDefined(line)
      modifies this`readType, this`calls, request
      ensures CutsOnly(old(request[..]), request[..], commandLine, end)
      ensures calls == old(calls) + LineCalls(rwChannel, line)
      ensures readType == if CommandId(line) == GET_PARAMETERS then Parameters else old(readType)
    {
      ghost var original := request[..];
      var command, parameterContext;
      ghost var e;
      command, parameterContext, e := NextToken(commandLine, ' ', commandLine, end, original);
      TablesAreFree(NUL);
      var id := GetId(command.value, e, COMMANDS);
      ghost var cut := request[..];
      if id == SET_OUTPUT || id == SET_PARAMETERS {
        ProcessParameters(parameterContext, end);
        CutsCompose(original, cut, request[..], commandLine, end, parameterContext, end);
      } else if id == GET_PARAMETERS {
        readType := Parameters;
      }
    }

    static lemma CutsCompose(a: seq<Octet>, b: seq<Octet>, c: seq<Octet>, lo: nat, hi: nat, lo': nat, hi': nat)
      requires CutsOnly(a, b, lo, hi) && CutsOnly(b, c, lo', hi') && lo <= lo' && hi' <= hi
      ensures CutsOnly(a, c, lo, hi)
    {
    }
  }
}
