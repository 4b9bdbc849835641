/**
  The port mapper (rpc_bind_server.cpp): GETPORT is answered on UDP and TCP, and
  only while the VXI server holds no client.
 */
module BindServer {
  import opened Octets
  import opened RpcPackets
  import opened PacketBuffers
  import opened LinkProtocol
  import opened VxiServer

  const READ_SIZE: nat := 64
  const SEND_SIZE: nat := 32

  /** A call with its program and procedure (RFC 5531, section 9). */
  type Call = b: seq<Octet> | 24 <= |b| < FRAGMENT witness Zeros(24)

  function BindInput(b: Call): Input {
    Bind(WordAt(b, 12), WordAt(b, 20))
  }

  /** What a read buffer of n bytes keeps of a call holds all that the call is about. */
  function Kept(b: Call, n: nat): (k: Call)
    requires n >= 24
    ensures k == b[..Min(n, |b|)] && BindInput(k) == BindInput(b) && WordAt(k, 0) == WordAt(b, 0)
  {
    var k: Call := b[..Min(n, |b|)];
    assert k[0..4] == b[0..4] && k[12..16] == b[12..16] && k[20..24] == b[20..24];
    k
  }

  /**
    s is the packet that tells the outcome: the port (RFC 1833, section 3), or a
    status, behind which the source leaves a word it never assigned.
   */
  ghost predicate Tells(s: seq<Octet>, xid: Word, o: Output) {
    match o
    case PortGiven(port) => s == Words(HeaderWords(xid)) + Words([SUCCESS, port])
    case BindRefused(status) => |s| == 28 && s[..24] == Words(HeaderWords(xid)) + Words([status])
    case _ => false
  }

  /** A client finds the port, or the status, where the protocol puts it. */
  lemma ToldPort(s: seq<Octet>, xid: Word, o: Output)
    requires Tells(s, xid, o)
    ensures |s| == 28 && WordAt(s, 0) == xid
    ensures o.PortGiven? ==> WordAt(s, 20) == SUCCESS && WordAt(s, 24) == o.port
    ensures o.BindRefused? ==> WordAt(s, 20) == o.status
  {
    var ws := HeaderWords(xid) + if o.PortGiven? then [SUCCESS, o.port] else [o.status];
    WordsConcat(HeaderWords(xid), if o.PortGiven? then [SUCCESS, o.port] else [o.status]);
    var rest := if o.PortGiven? then [] else s[24..];
    assert s == Words(ws) + rest;
    WordOfWords(ws, 0, rest);
    WordOfWords(ws, 5, rest);
    if o.PortGiven? {
      WordOfWords(ws, 6, rest);
    }
  }

  /**
    The reply to a bind call, word by word: accepted, and status 1 for a program
    that is not the port mapper, 3 for a procedure that is not GETPORT, else 0 and
    the port.
   */
  ghost predicate IsBindReply(s: seq<Octet>, call: Call, port: Word) {
    && |s| == 28 && WordAt(s, 0) == WordAt(call, 0) && WordAt(s, 4) == 1
    && WordAt(s, 8) == 0 && WordAt(s, 12) == 0 && WordAt(s, 16) == 0
    && (if WordAt(call, 12) != 100000 then WordAt(s, 20) == 1
        else if WordAt(call, 20) != 3 then WordAt(s, 20) == 3
        else WordAt(s, 20) == 0 && WordAt(s, 24) == port)
  }

  lemma BindReplyIs(s: seq<Octet>, call: Call, link: Link)
    requires Good(link) && !link.held && Tells(s, WordAt(call, 0), Seen(link, BindInput(call)))
    ensures IsBindReply(s, call, link.listening)
  {
    var o := Seen(link, BindInput(call));
    ToldPort(s, WordAt(call, 0), o);
    ToldHeader(s, WordAt(call, 0), o);
  }

  lemma ToldHeader(s: seq<Octet>, xid: Word, o: Output)
    requires Tells(s, xid, o)
    ensures |s| == 28 && WordAt(s, 4) == 1 && WordAt(s, 8) == 0 && WordAt(s, 12) == 0 && WordAt(s, 16) == 0
  {
    var ws, rest := HeaderWords(xid), s[20..];
    assert s == Words(ws) + rest by {
      if o.BindRefused? {
        assert s == s[..24] + s[24..];
      }
    }
    WordOfWords(ws, 1, rest);
    WordOfWords(ws, 2, rest);
    WordOfWords(ws, 3, rest);
    WordOfWords(ws, 4, rest);
  }

  class RpcBindServer {
    const vxi: VxiServer
    const udpRead: array<Octet>
    const udpSend: array<Octet>
    const tcpRead: array<Octet>
    const tcpSend: array<Octet>

    ghost predicate Valid()
      reads this, vxi`held, vxi`listening, vxi.vxiPort
    {
      && vxi.Valid()
      && udpRead.Length == tcpRead.Length == READ_SIZE && udpSend.Length == tcpSend.Length == SEND_SIZE
      && udpRead != udpSend && tcpRead != tcpSend
    }

    constructor (vxi: VxiServer)
      requires vxi.Valid()
      ensures Valid() && this.vxi == vxi
      ensures fresh(udpRead) && fresh(udpSend) && fresh(tcpRead) && fresh(tcpSend)
    {
      this.vxi := vxi;
      udpRead := new Octet[READ_SIZE];
      udpSend := new Octet[SEND_SIZE];
      tcpRead := new Octet[READ_SIZE];
      tcpSend := new Octet[SEND_SIZE];
    }

    /**
      loop(): a datagram is answered first, else a TCP client; while a client is
      held nothing is read and nothing is sent. The servers' state stays as it is.
     */
    method Loop(udp: Option<Call>, tcp: Option<seq<Octet>>, ghost last: bool, ghost body: Call, ghost rest: seq<Octet>)
      returns (sent: Option<seq<Octet>>)
      requires Valid()
      requires tcp.Some? && tcp.value != [] ==> tcp.value == Marked(last, body) + rest
      modifies udpRead, udpSend, tcpRead, tcpSend
      ensures Valid()
      ensures vxi.held ==> sent == None
      ensures !vxi.held && udp.Some? ==>
                && sent.Some? && Tells(sent.value, WordAt(udp.value, 0), Seen(vxi.LinkState(), BindInput(udp.value)))
                && IsBindReply(sent.value, udp.value, vxi.listening)
      ensures !vxi.held && udp.None? ==>
                if tcp.None? || tcp.value == [] then sent == None
                else
                  && sent.Some? && |sent.value| == SEND_SIZE
                  && sent.value[..4] == XdrWord(FRAGMENT + 28)
                  && Tells(sent.value[4..], WordAt(body, 0), Seen(vxi.LinkState(), BindInput(body)))
                  && WordAt(sent.value, 0) == 0x8000_0000 + 28 && IsBindReply(sent.value[4..], body, vxi.listening)
    {
      sent := None;
      if !vxi.held {
        if udp.Some? {
          var s := ServeUdp(udp.value);
          BindReplyIs(s, udp.value, vxi.LinkState());
          sent := Some(s);
        } else if tcp.Some? {
          sent := ServeTcp(tcp.value, last, body, rest);
          if sent.Some? {
            BindReplyIs(sent.value[4..], body, vxi.LinkState());
            MarkInReply(sent.value);
          }
        }
      }
    }

    static lemma MarkInReply(s: seq<Octet>)
      requires |s| == SEND_SIZE && s[..4] == XdrWord(FRAGMENT + 28)
      ensures WordAt(s, 0) == 0x8000_0000 + 28
    {
      assert s[0..4] == s[..4];
      WordRoundTrip(FRAGMENT + 28);
    }

    method ServeUdp(call: Call) returns (s: seq<Octet>)
      requires Valid() && !vxi.held
      modifies udpRead, udpSend
      ensures Tells(s, WordAt(call, 0), Seen(vxi.LinkState(), BindInput(call)))
    {
      var rest := ReadBytes(udpRead, 0, READ_SIZE, call);
      ghost var kept := Kept(call, READ_SIZE);
      assert udpRead[0..|kept|] == kept;
      ghost var o := ProcessRequest(udpRead, udpSend, 0, kept);
      var xid := Field(udpRead, 0, 0, kept);
      ghost var results := udpSend[20..28];
      FillResponseHeader(udpSend, 0, xid);
      assert udpSend[20..28] == udpSend[20..][..8] == results;
      s := udpSend[..28];
      assert s == udpSend[0..20] + results;
      Assembled(s, xid, results, o);
    }

    method ServeTcp(input: seq<Octet>, ghost last: bool, ghost body: Call, ghost rest: seq<Octet>)
      returns (sent: Option<seq<Octet>>)
      requires Valid() && !vxi.held
      requires input != [] ==> input == Marked(last, body) + rest
      modifies tcpRead, tcpSend
      ensures input == [] ==> sent == None
      ensures input != [] ==>
                && sent.Some? && |sent.value| == SEND_SIZE
                && sent.value[..4] == XdrWord(FRAGMENT + 28)
                && Tells(sent.value[4..], WordAt(body, 0), Seen(vxi.LinkState(), BindInput(body)))
    {
      var len, behind := GetPacket(tcpRead, input);
      if input == [] {
        VxiServer.EmptyStream();
      } else {
        MarkRead(last, body, rest);
      }
      if len == 0 {
        return None;
      }
      ghost var kept := Kept(body, READ_SIZE - 4);
      BodyFollows(last, body, rest, |kept|);
      var s := AnswerTcp(kept);
      return Some(s);
    }

    static lemma BodyFollows(last: bool, body: Call, rest: seq<Octet>, n: nat)
      requires n <= |body|
      ensures (Marked(last, body) + rest)[4..4 + n] == body[..n]
    {
    }

    /** The call that has been read is answered behind a mark. */
    method AnswerTcp(ghost call: Call) returns (s: seq<Octet>)
      requires Valid() && !vxi.held && |call| <= READ_SIZE - 4 && tcpRead[4..4 + |call|] == call
      modifies tcpSend
      ensures |s| == SEND_SIZE && s[..4] == XdrWord(FRAGMENT + 28)
      ensures Tells(s[4..], WordAt(call, 0), Seen(vxi.LinkState(), BindInput(call)))
    {
      ghost var o := ProcessRequest(tcpRead, tcpSend, 4, call);
      var xid := Field(tcpRead, 4, 0, call);
      ghost var results := tcpSend[24..32];
      s := SendPacket(tcpSend, xid, 28, results);
      assert s[4..] == Words(HeaderWords(xid)) + results;
      Assembled(s[4..], xid, results, o);
    }

    /** The results of a request as they stand in the send buffer. */
    static ghost predicate ResultsTell(results: seq<Octet>, o: Output) {
      match o
      case PortGiven(port) => results == Words([SUCCESS, port])
      case BindRefused(status) => |results| == 8 && results[..4] == Words([status])
      case _ => false
    }

    static lemma Assembled(s: seq<Octet>, xid: Word, results: seq<Octet>, o: Output)
      requires ResultsTell(results, o) && s == Words(HeaderWords(xid)) + results
      ensures Tells(s, xid, o)
    {
      if o.BindRefused? {
        assert s[..24] == Words(HeaderWords(xid)) + results[..4];
      }
    }

    /** A field of the call that starts at from. */
    static method Field(buffer: array<Octet>, from: nat, at: nat, ghost call: Call) returns (w: Word)
      requires from + |call| <= buffer.Length && buffer[from..from + |call|] == call && at + 4 <= |call|
      ensures w == WordAt(call, at)
    {
      w := GetWord(buffer, from + at);
      FieldInside(buffer[..], from, call, at);
      assert buffer[..][from + at..from + at + 4] == buffer[from + at..from + at + 4];
    }

    /** process_request on buffers whose packets start at from; port is not assigned when the request fails. */
    method ProcessRequest(request: array<Octet>, response: array<Octet>, from: nat, ghost call: Call)
      returns (ghost o: Output)
      requires Valid() && !vxi.held && request != response
      requires from + |call| <= request.Length && request[from..from + |call|] == call
      requires from + 28 <= response.Length
      modifies response
      ensures request[..] == old(request[..])
      ensures o == Seen(vxi.LinkState(), BindInput(call))
      ensures ResultsTell(response[from + 20..from + 28], o)
    {
      var rc := SUCCESS;
      var port: Word := *;
      var program := Field(request, from, 12, call);
      var procedure := Field(request, from, 20, call);
      if program != PORTMAP {
        rc := PROG_UNAVAIL;
      } else if procedure != GET_PORT {
        rc := PROC_UNAVAIL;
      } else {
        port := vxi.Allocate();
        if port == 0 {
          rc := GARBAGE_ARGS;
        }
      }
      o := Seen(vxi.LinkState(), BindInput(call));
      PutNext(response, from + 20, [], from + 20, rc);
      assert [] + [rc] == [rc] && [rc] + [port] == [rc, port];
      PutNext(response, from + 20, [rc], from + 24, port);
      WordsConcat([rc], [port]);
      assert response[from + 20..from + 28][..4] == Words([rc]);
    }
  }
}
