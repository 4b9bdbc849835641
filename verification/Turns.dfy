/**
  The servers turn by turn (espBode.ino): what is there to read in a turn, what a
  turn makes of the link, the requests and the generator, and that any turns make
  a run of the protocol on which every request is answered in order.
 */
module Turns {
  import opened Octets
  import opened RpcPackets
  import opened VxiRequests
  import opened LinkProtocol
  import opened BindServer

  /** A request with its fragment bit. */
  type Sending = (bool, Request)

  /** What there is to read: a datagram, a TCP bind call, a new client with the requests it will send. */
  datatype Turn = Turn(udp: Option<Call>, tcp: Option<(bool, Call)>, client: Option<seq<Sending>>)

  /** The bytes of the requests a client sends. */
  function Sent(frames: seq<Sending>): seq<Octet> {
    if frames == [] then [] else Marked(frames[0].0, frames[0].1) + Sent(frames[1..])
  }

  /** The bind call a turn offers: a datagram goes first. */
  function CallOf(t: Turn): Option<Call> {
    if t.udp.Some? then t.udp else if t.tcp.Some? then Some(t.tcp.value.1) else None
  }

  /**
    Between two turns: the link; all that its client sends, what of it is still to
    be read, the requests served on the link, and those served on all links so far.
   */
  datatype Moment = Moment(
    link: Link, sent: seq<Sending>, frames: seq<Sending>, served: seq<Request>, history: seq<Request>)

  /** After setup(). */
  const POWER_UP := Moment(Link(false, PORT_START, PORT_START), [], [], [], [])

  /** One turn serves the next request of a held client, or accepts a client. */
  function Next(m: Moment, t: Turn): (r: Moment)
    requires Good(m.link)
    ensures Good(r.link)
  {
    if m.link.held then
      if m.frames == [] then m
      else
        var b := m.frames[0].1;
        Moment(Step(m.link, Serve(Is(b, DESTROY_LINK))), m.sent, m.frames[1..], m.served + [b], m.history + [b])
    else if t.client.Some? then
      Moment(Step(m.link, Arrive), t.client.value, t.client.value, [], m.history)
    else m
  }

  function After(m: Moment, turns: seq<Turn>, n: nat): (r: Moment)
    requires Good(m.link) && n <= |turns|
    ensures Good(r.link)
  {
    if n == 0 then m else Next(After(m, turns, n - 1), turns[n - 1])
  }

  // ---------- a run of the protocol ----------

  /** The inputs of the protocol in one turn. */
  function Inputs(m: Moment, t: Turn): seq<Input> {
    (if CallOf(t).Some? then [BindInput(CallOf(t).value)] else []) + VxiInputs(m, t)
  }

  function VxiInputs(m: Moment, t: Turn): seq<Input> {
    if m.link.held then (if m.frames == [] then [] else [Serve(Is(m.frames[0].1, DESTROY_LINK))])
    else if t.client.Some? then [Arrive]
    else []
  }

  /** The inputs of the protocol in the first n turns. */
  function RunInputs(m: Moment, turns: seq<Turn>, n: nat): seq<Input>
    requires Good(m.link) && n <= |turns|
  {
    if n == 0 then [] else RunInputs(m, turns, n - 1) + Inputs(After(m, turns, n - 1), turns[n - 1])
  }

  lemma OneInput(s: Link, inputs: seq<Input>)
    requires Good(s) && |inputs| <= 1
    ensures End(s, inputs) == if inputs == [] then s else Step(s, inputs[0])
  {
    if inputs != [] {
      assert inputs[1..] == [];
    }
  }

  lemma EndOfTurn(m: Moment, t: Turn)
    requires Good(m.link)
    ensures End(m.link, Inputs(m, t)) == Next(m, t).link
  {
    var call := if CallOf(t).Some? then [BindInput(CallOf(t).value)] else [];
    RunConcat(m.link, call, VxiInputs(m, t));
    OneInput(m.link, call);
    OneInput(End(m.link, call), VxiInputs(m, t));
  }

  lemma RunGoesOn(s: Link, done: seq<Input>, m: Moment, t: Turn)
    requires Good(s) && Good(m.link)
    ensures End(s, done) == m.link ==> End(s, done + Inputs(m, t)) == Next(m, t).link
  {
    EndOfTurn(m, t);
    RunConcat(s, done, Inputs(m, t));
  }

  lemma TurnUnfolds(m: Moment, turns: seq<Turn>, n: nat)
    requires Good(m.link) && n < |turns|
    ensures After(m, turns, n + 1) == Next(After(m, turns, n), turns[n])
    ensures RunInputs(m, turns, n + 1) == RunInputs(m, turns, n) + Inputs(After(m, turns, n), turns[n])
  {
  }

  /** Turns are a run of the protocol. */
  lemma {:induction false} TurnsAreRun(m: Moment, turns: seq<Turn>, n: nat, e: Link, inputs: seq<Input>)
    requires Good(m.link) && n <= |turns| && e == After(m, turns, n).link && inputs == RunInputs(m, turns, n)
    ensures End(m.link, inputs) == e
  {
    if n > 0 {
      var before, done, t := After(m, turns, n - 1), RunInputs(m, turns, n - 1), turns[n - 1];
      TurnUnfolds(m, turns, n - 1);
      TurnsAreRun(m, turns, n - 1, before.link, done);
      RunGoesOn(m.link, done, before, t);
    }
  }

  /** From power-up, after any turns, the server listens on 9010 + k mod 10 for the k links closed so far. */
  lemma PortOfTurns(turns: seq<Turn>, n: nat)
    requires n <= |turns|
    ensures After(POWER_UP, turns, n).link.listening
         == 9010 + Count(Run(POWER_UP.link, RunInputs(POWER_UP, turns, n))) % 10
  {
    TurnsAreRun(POWER_UP, turns, n, After(POWER_UP, turns, n).link, RunInputs(POWER_UP, turns, n));
    PortAfterRun(false, RunInputs(POWER_UP, turns, n));
  }

  lemma NobodyComes(m: Moment, turns: seq<Turn>, n: nat)
    requires Good(m.link) && n < |turns| && !After(m, turns, n).link.held && turns[n].client.None?
    ensures After(m, turns, n + 1).link == After(m, turns, n).link
  {
  }

  /** A link without a client stays as it is until one arrives. */
  lemma {:induction false} LinkStays(m: Moment, turns: seq<Turn>, i: nat, j: nat, s: Link)
    requires Good(m.link) && i <= j <= |turns| && s == After(m, turns, i).link && !s.held
    requires forall k :: i <= k < j ==> turns[k].client.None?
    ensures After(m, turns, j).link == s
    decreases j - i
  {
    if i < j {
      NobodyComes(m, turns, i);
      LinkStays(m, turns, i + 1, j, s);
    }
  }

  // ---------- requests are served in order ----------

  function Requests(frames: seq<Sending>): seq<Request> {
    if frames == [] then [] else [frames[0].1] + Requests(frames[1..])
  }

  lemma {:induction false} RequestAt(frames: seq<Sending>, n: nat)
    requires n < |frames|
    ensures |Requests(frames)| == |frames| && Requests(frames)[n] == frames[n].1
  {
    if n > 0 {
      RequestAt(frames[1..], n - 1);
    } else if |frames| > 1 {
      RequestAt(frames[1..], 0);
    }
  }

  /**
    What has been served and what is still to be read make up what the client
    sends, and what has been served on the link was served last.
   */
  predicate Complete(m: Moment) {
    && m.served + Requests(m.frames) == Requests(m.sent)
    && |m.served| <= |m.history| && m.history[|m.history| - |m.served|..] == m.served
  }

  lemma NextComplete(m: Moment, t: Turn)
    requires Good(m.link) && Complete(m)
    ensures Complete(Next(m, t))
  {
    if m.link.held && m.frames != [] {
      var b, rest := m.frames[0].1, Requests(m.frames[1..]);
      assert m.served + ([b] + rest) == m.served + [b] + rest;
      assert (m.history + [b])[|m.history| - |m.served|..] == m.history[|m.history| - |m.served|..] + [b];
    } else if !m.link.held && t.client.Some? {
      assert [] + Requests(t.client.value) == Requests(t.client.value);
    }
  }

  lemma {:induction false} RunComplete(m: Moment, turns: seq<Turn>, n: nat)
    requires Good(m.link) && Complete(m) && n <= |turns|
    ensures Complete(After(m, turns, n))
  {
    if n > 0 {
      RunComplete(m, turns, n - 1);
      NextComplete(After(m, turns, n - 1), turns[n - 1]);
    }
  }

  /** At every moment of a run, the requests served on the link are the first ones its client sends. */
  lemma ServedInOrder(m: Moment, turns: seq<Turn>, n: nat, r: Moment)
    requires Good(m.link) && Complete(m) && n <= |turns| && r == After(m, turns, n)
    ensures |r.served| <= |r.sent| && forall k :: 0 <= k < |r.served| ==> r.served[k] == r.sent[k].1
  {
    RunComplete(m, turns, n);
    ServedAreSent(r);
  }

  lemma ServedAreSent(m: Moment)
    requires Complete(m)
    ensures |m.served| <= |m.sent| && forall k :: 0 <= k < |m.served| ==> m.served[k] == m.sent[k].1
  {
    if m.sent != [] {
      RequestAt(m.sent, 0);
    }
    forall k | 0 <= k < |m.served| ensures m.served[k] == m.sent[k].1 {
      RequestAt(m.sent, k);
      assert (m.served + Requests(m.frames))[k] == m.served[k];
    }
  }

  // ---------- what is seen of a run ----------

  /** What a turn shows: a reply of the port mapper, and all that has been written to the present or last link. */
  datatype Sight = Sight(reply: Option<seq<Octet>>, output: seq<Octet>)

  /** The reply of the port mapper tells what the protocol shows; on TCP it follows a record mark. */
  ghost predicate Replied(s: Link, t: Turn, reply: Option<seq<Octet>>)
    requires Good(s)
  {
    if CallOf(t).None? || s.held then reply == None
    else
      reply.Some? &&
      var o := Seen(s, BindInput(CallOf(t).value));
      var xid := WordAt(CallOf(t).value, 0);
      if t.udp.Some? then Tells(reply.value, xid, o)
      else |reply.value| == 32 && reply.value[..4] == XdrWord(FRAGMENT + 28) && Tells(reply.value[4..], xid, o)
  }

  /** Turn n shows the reply to its call, and behind it one reply for each request served. */
  ghost predicate Shown(m: Moment, turns: seq<Turn>, n: nat, s: Sight, id: seq<Octet>)
    requires Good(m.link) && n < |turns| && IsId(id)
  {
    Replied(After(m, turns, n).link, turns[n], s.reply) && s.output == Replies(After(m, turns, n + 1).served, id)
  }

  ghost predicate ShownInRun(m: Moment, turns: seq<Turn>, seen: seq<Sight>, id: seq<Octet>)
    requires Good(m.link) && |seen| <= |turns| && IsId(id)
  {
    seen == [] ||
    var n := |seen| - 1;
    ShownInRun(m, turns, seen[..n], id) && Shown(m, turns, n, seen[n], id)
  }

  lemma OneMoreShown(m: Moment, turns: seq<Turn>, seen: seq<Sight>, s: Sight, id: seq<Octet>)
    requires Good(m.link) && |seen| < |turns| && IsId(id)
    requires ShownInRun(m, turns, seen, id) && Shown(m, turns, |seen|, s, id)
    ensures ShownInRun(m, turns, seen + [s], id)
  {
    assert (seen + [s])[..|seen|] == seen;
  }

  lemma {:induction false} EachShown(m: Moment, turns: seq<Turn>, seen: seq<Sight>, id: seq<Octet>, k: nat)
    requires Good(m.link) && k < |seen| <= |turns| && IsId(id) && ShownInRun(m, turns, seen, id)
    ensures Shown(m, turns, k, seen[k], id)
  {
    if k < |seen| - 1 {
      EachShown(m, turns, seen[..|seen| - 1], id, k);
    }
  }

  lemma OutputAnswers(r: Moment, output: seq<Octet>, id: seq<Octet>, n: nat)
    requires Complete(r) && IsId(id) && output == Replies(r.served, id) && n < |r.served|
    ensures |Bodies(output)| == |r.served| <= |r.sent| && IsReply(Bodies(output)[n], r.sent[n].1, id)
  {
    ServedAreSent(r);
    NthReplyAnswersNthRequest(r.served, id, n);
  }

  lemma OutputShown(m: Moment, turns: seq<Turn>, seen: seq<Sight>, id: seq<Octet>, k: nat, r: Moment)
    requires Good(m.link) && k < |seen| <= |turns| && IsId(id) && ShownInRun(m, turns, seen, id)
    requires r == After(m, turns, k + 1)
    ensures seen[k].output == Replies(r.served, id)
  {
    EachShown(m, turns, seen, id, k);
  }

  /**
    After every turn of a run, what has been written to the link is one record
    for each request served, and the n-th is the reply to the n-th request its
    client sends.
   */
  lemma LinkAnswers(m: Moment, turns: seq<Turn>, seen: seq<Sight>, id: seq<Octet>, k: nat, r: Moment, n: nat)
    requires Good(m.link) && Complete(m) && k < |seen| <= |turns| && IsId(id) && ShownInRun(m, turns, seen, id)
    requires r == After(m, turns, k + 1) && n < |r.served|
    ensures |Bodies(seen[k].output)| == |r.served| <= |r.sent|
    ensures IsReply(Bodies(seen[k].output)[n], r.sent[n].1, id)
  {
    OutputShown(m, turns, seen, id, k, r);
    RunComplete(m, turns, k + 1);
    OutputAnswers(r, seen[k].output, id, n);
  }

  lemma PortInReply(s: Link, t: Turn, reply: seq<Octet>)
    requires Good(s) && Replied(s, t, Some(reply))
    requires CallOf(t).Some? && BindInput(CallOf(t).value) == Bind(PORTMAP, GET_PORT)
    ensures !s.held && |reply| == (if t.udp.Some? then 28 else 32) && WordAt(reply, |reply| - 4) == s.port
  {
    var packet := if t.udp.Some? then reply else reply[4..];
    ToldPort(packet, WordAt(CallOf(t).value, 0), PortGiven(s.port));
    assert packet[24..28] == reply[|reply| - 4..][..4];
    assert reply[|reply| - 4..|reply| - 4 + 4] == reply[|reply| - 4..][..4];
  }

  /**
    Over any turns: once a GETPORT has been answered, the next client to arrive is
    accepted, and on the port that stands in the bytes of that reply.
   */
  lemma AnnouncedPort(m: Moment, turns: seq<Turn>, seen: seq<Sight>, id: seq<Octet>, i: nat, j: nat)
    requires Good(m.link) && i <= j < |turns| == |seen| && IsId(id) && ShownInRun(m, turns, seen, id)
    requires CallOf(turns[i]).Some? && BindInput(CallOf(turns[i]).value) == Bind(PORTMAP, GET_PORT)
    requires seen[i].reply.Some? && turns[j].client.Some? && forall k :: i <= k < j ==> turns[k].client.None?
    ensures |seen[i].reply.value| >= 4
    ensures Seen(After(m, turns, j).link, Arrive)
         == Accepted(WordAt(seen[i].reply.value, |seen[i].reply.value| - 4))
  {
    EachShown(m, turns, seen, id, i);
    PortInReply(After(m, turns, i).link, turns[i], seen[i].reply.value);
    LinkStays(m, turns, i, j, After(m, turns, i).link);
  }
}
