/**
  The main loop (espBode.ino): the servers take turns. Whatever arrives, the two
  servers go through the moments of a run, so what holds of every run holds of them.
 */
module EspBode {
  import opened Octets
  import opened RpcPackets
  import opened VxiRequests
  import opened LinkProtocol
  import opened VxiServer
  import opened BindServer
  import opened Turns

  /** The fields of the server are those of the moment. */
  ghost predicate Shows(vxi: VxiServer, m: Moment)
    reads vxi, vxi.vxiPort
  {
    && vxi.LinkState() == m.link && vxi.served == m.served && vxi.calls == CallsOfAll(m.history)
    && vxi.rwChannel == ChannelAfterAll(m.history) && vxi.readType == ReadTypeAfterAll(m.history)
    && (vxi.held ==> vxi.input == Sent(m.frames))
  }

  method TakeBind(bind: RpcBindServer, t: Turn) returns (reply: Option<seq<Octet>>)
    requires bind.Valid()
    modifies bind.udpRead, bind.udpSend, bind.tcpRead, bind.tcpSend
    ensures bind.Valid()
    ensures Replied(bind.vxi.LinkState(), t, reply)
  {
    if t.tcp.Some? {
      var (last, body) := t.tcp.value;
      assert Marked(last, body) + [] == Marked(last, body) && Marked(last, body) != [];
      reply := bind.Loop(t.udp, Some(Marked(last, body)), last, body, []);
    } else {
      reply := bind.Loop(t.udp, None, true, Zeros(24), []);
    }
  }

  method TakeVxi(vxi: VxiServer, t: Turn, ghost m: Moment)
    requires vxi.Valid() && vxi.Answered() && Shows(vxi, m)
    modifies vxi, vxi.request, vxi.response, vxi.vxiPort
    ensures vxi.Valid() && vxi.Answered() && Shows(vxi, Next(m, t))
  {
    ghost var frames := m.frames;
    ghost var (last, body: Request) := if frames != [] then frames[0] else (true, NoRequest());
    ghost var rest := if frames != [] then Sent(frames[1..]) else [];
    assert frames != [] ==> Sent(frames) == Marked(last, body) + rest && Sent(frames) != [];
    OneMoreParsed(m.history, body);
    var arrival := if t.client.Some? then Some(Sent(t.client.value)) else None;
    vxi.Loop(arrival, last, body, rest);
  }

  /** One turn of loop() for the port mapper and the VXI server. */
  method TakeTurn(bind: RpcBindServer, vxi: VxiServer, t: Turn, ghost m: Moment) returns (reply: Option<seq<Octet>>)
    requires bind.Valid() && bind.vxi == vxi && vxi.Answered() && Shows(vxi, m)
    requires {bind.udpRead, bind.udpSend, bind.tcpRead, bind.tcpSend} !! {vxi.request, vxi.response}
    modifies bind.udpRead, bind.udpSend, bind.tcpRead, bind.tcpSend, vxi, vxi.request, vxi.response, vxi.vxiPort
    ensures bind.Valid() && vxi.Answered()
    ensures Replied(m.link, t, reply) && Shows(vxi, Next(m, t))
  {
    reply := TakeBind(bind, t);
    TakeVxi(vxi, t, m);
  }

  /** Any number of turns takes the servers through the moments of the run; seen is what each turn shows. */
  method Loop(bind: RpcBindServer, vxi: VxiServer, turns: seq<Turn>, ghost m: Moment) returns (seen: seq<Sight>)
    requires bind.Valid() && bind.vxi == vxi && vxi.Answered() && Good(m.link) && Shows(vxi, m)
    requires {bind.udpRead, bind.udpSend, bind.tcpRead, bind.tcpSend} !! {vxi.request, vxi.response}
    modifies bind.udpRead, bind.udpSend, bind.tcpRead, bind.tcpSend, vxi, vxi.request, vxi.response, vxi.vxiPort
    ensures bind.Valid() && vxi.Answered() && Shows(vxi, After(m, turns, |turns|))
    ensures |seen| == |turns| && ShownInRun(m, turns, seen, vxi.id)
  {
    seen := [];
    for i := 0 to |turns|
      invariant bind.Valid() && vxi.Answered() && Shows(vxi, After(m, turns, i))
      invariant |seen| == i && ShownInRun(m, turns, seen, vxi.id)
    {
      var reply := TakeTurn(bind, vxi, turns[i], After(m, turns, i));
      OneMoreShown(m, turns, seen, Sight(reply, vxi.output), vxi.id);
      seen := seen + [Sight(reply, vxi.output)];
    }
  }

  /** setup() and then loop() as often as there are turns. */
  method PowerUp(id: seq<Octet>, turns: seq<Turn>) returns (vxi: VxiServer, bind: RpcBindServer, seen: seq<Sight>)
    requires IsId(id)
    ensures fresh(vxi) && fresh(bind) && vxi.id == id && bind.vxi == vxi && bind.Valid() && vxi.Answered()
    ensures Shows(vxi, After(POWER_UP, turns, |turns|))
    ensures |seen| == |turns| && ShownInRun(POWER_UP, turns, seen, id)
    ensures vxi.listening == 9010 + Count(Run(POWER_UP.link, RunInputs(POWER_UP, turns, |turns|))) % 10
  {
    vxi := new VxiServer(id);
    bind := new RpcBindServer(vxi);
    seen := Loop(bind, vxi, turns, POWER_UP);
    PortOfTurns(turns, |turns|);
  }
}
