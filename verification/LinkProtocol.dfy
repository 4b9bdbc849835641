/**
  The port mapper and the VXI server as one state machine: bind requests,
  arriving clients and served packets in any order.
 */
module LinkProtocol {
  import opened Octets
  import opened Cyclic
  import opened RpcPackets

  const PORT_START: Word := 9010
  const PORT_END: Word := 9019

  /** Whether a client is held, the port counter, and the port the TCP server listens on. */
  datatype Link = Link(held: bool, port: Word, listening: Word)

  datatype Input =
    | Bind(program: Word, procedure: Word)
    | Arrive
    | Serve(destroy: bool)

  datatype Output =
    | Silent
    | BindRefused(status: Word)
    | PortGiven(port: Word)
    | Accepted(port: Word)
    | Served
    | Closed

  predicate Good(s: Link) {
    PORT_START <= s.port <= PORT_END && s.listening == s.port
  }

  /** Nothing but the end of a held link moves the port. */
  function Step(s: Link, i: Input): Link
    requires Good(s)
  {
    match i
    case Bind(_, _) => s
    case Arrive => s.(held := true)
    case Serve(destroy) =>
      if s.held && destroy then
        var p := Next(s.port, PORT_START, PORT_END);
        Link(false, p, p)
      else s
  }

  /** What is seen: requests are not read while a client is held. */
  function Seen(s: Link, i: Input): Output
    requires Good(s)
  {
    match i
    case Bind(program, procedure) =>
      if s.held then Silent
      else if program != PORTMAP then BindRefused(PROG_UNAVAIL)
      else if procedure != GET_PORT then BindRefused(PROC_UNAVAIL)
      else PortGiven(s.port)
    case Arrive => if s.held then Silent else Accepted(s.listening)
    case Serve(destroy) => if !s.held then Silent else if destroy then Closed else Served
  }

  function Run(s: Link, inputs: seq<Input>): (outs: seq<Output>)
    requires Good(s)
    ensures |outs| == |inputs|
    decreases |inputs|
  {
    if inputs == [] then [] else [Seen(s, inputs[0])] + Run(Step(s, inputs[0]), inputs[1..])
  }

  function End(s: Link, inputs: seq<Input>): (e: Link)
    requires Good(s)
    ensures Good(e)
    decreases |inputs|
  {
    if inputs == [] then s else End(Step(s, inputs[0]), inputs[1..])
  }

  lemma {:induction false} RunConcat(s: Link, a: seq<Input>, b: seq<Input>)
    requires Good(s)
    ensures Run(s, a + b) == Run(s, a) + Run(End(s, a), b)
    ensures End(s, a + b) == End(End(s, a), b)
    decreases |a|
  {
    if a == [] {
      assert a + b == b;
    } else {
      assert (a + b)[1..] == a[1..] + b;
      RunConcat(Step(s, a[0]), a[1..], b);
    }
  }

  // ---------- the announced port ----------

  lemma RestOfRun(s: Link, inputs: seq<Input>)
    requires Good(s) && inputs != []
    ensures var outs, rest := Run(s, inputs), Run(Step(s, inputs[0]), inputs[1..]);
            outs[0] == Seen(s, inputs[0]) && forall k :: 0 <= k < |rest| ==> rest[k] == outs[k + 1]
  {
  }

  lemma {:induction false} FirstAccepted(s: Link, inputs: seq<Input>, j: nat)
    requires Good(s) && !s.held && j < |inputs| && Run(s, inputs)[j].Accepted?
    requires forall k :: 0 <= k < j ==> !Run(s, inputs)[k].Accepted?
    ensures Run(s, inputs)[j] == Accepted(s.listening)
    decreases |inputs|
  {
    var outs := Run(s, inputs);
    if j > 0 {
      assert !outs[0].Accepted?;
      var rest := Run(Step(s, inputs[0]), inputs[1..]);
      assert forall k :: 0 <= k < |rest| ==> rest[k] == outs[k + 1];
      FirstAccepted(Step(s, inputs[0]), inputs[1..], j - 1);
    }
  }

  /** In every run, the first client accepted after a successful GETPORT reply comes in on the port of that reply. */
  lemma {:induction false} GivenPortIsAccepted(s: Link, inputs: seq<Input>, i: nat, j: nat)
    requires Good(s) && i < j < |inputs|
    requires Run(s, inputs)[i].PortGiven? && Run(s, inputs)[j].Accepted?
    requires forall k :: i < k < j ==> !Run(s, inputs)[k].Accepted?
    ensures Run(s, inputs)[j].port == Run(s, inputs)[i].port
    decreases |inputs|
  {
    var s' := Step(s, inputs[0]);
    var outs, rest := Run(s, inputs), Run(s', inputs[1..]);
    RestOfRun(s, inputs);
    if i == 0 {
      FirstAccepted(s', inputs[1..], j - 1);
    } else {
      GivenPortIsAccepted(s', inputs[1..], i - 1, j - 1);
    }
  }

  function Links(outs: seq<Output>): nat {
    if outs == [] then 0 else (if outs[0].Accepted? then 1 else 0) + Links(outs[1..])
  }

  function OneIf(b: bool): nat {
    if b then 1 else 0
  }

  /** In every run each link that is accepted is closed once or still held: there is never more than one. */
  lemma {:induction false} LinksAreClosed(s: Link, inputs: seq<Input>)
    requires Good(s)
    ensures OneIf(s.held) + Links(Run(s, inputs)) == Count(Run(s, inputs)) + OneIf(End(s, inputs).held)
    decreases |inputs|
  {
    if inputs != [] {
      var s' := Step(s, inputs[0]);
      LinksAreClosed(s', inputs[1..]);
      assert Run(s, inputs)[1..] == Run(s', inputs[1..]);
    }
  }

  /** A client is accepted just when none is held, on a port from 9010 to 9019, and served requests just when it is. */
  lemma HeldDecides(s: Link, i: Input)
    requires Good(s)
    ensures Seen(s, Arrive).Accepted? <==> !s.held
    ensures !s.held ==> 9010 <= Seen(s, Arrive).port <= 9019
    ensures Seen(s, Serve(true)) == (if s.held then Closed else Silent)
    ensures Seen(s, Serve(false)) == (if s.held then Served else Silent)
    ensures Step(s, i).port != s.port ==> Seen(s, i) == Closed
  {
  }

  // ---------- the rotation ----------

  function Count(outs: seq<Output>): nat {
    if outs == [] then 0 else (if outs[0].Closed? then 1 else 0) + Count(outs[1..])
  }

  lemma {:induction false} NextFirst(d: Word, n: nat)
    requires PORT_START <= d <= PORT_END
    ensures NextN(Next(d, PORT_START, PORT_END), PORT_START, PORT_END, n) == NextN(d, PORT_START, PORT_END, n + 1)
  {
    if n > 0 {
      NextFirst(d, n - 1);
    }
  }

  lemma {:induction false} PortMoves(s: Link, inputs: seq<Input>)
    requires Good(s)
    ensures End(s, inputs).port == NextN(s.port, PORT_START, PORT_END, Count(Run(s, inputs)))
    decreases |inputs|
  {
    if inputs != [] {
      var s' := Step(s, inputs[0]);
      PortMoves(s', inputs[1..]);
      assert Run(s, inputs)[1..] == Run(s', inputs[1..]);
      NextFirst(s.port, Count(Run(s', inputs[1..])));
    }
  }

  /** After k closed links the server listens on port 9010 + k mod 10. */
  lemma PortAfterRun(held: bool, inputs: seq<Input>)
    ensures End(Link(held, PORT_START, PORT_START), inputs).listening
         == 9010 + Count(Run(Link(held, PORT_START, PORT_START), inputs)) % 10
  {
    var s := Link(held, PORT_START, PORT_START);
    PortMoves(s, inputs);
    ClosedForm(PORT_START, PORT_START, PORT_END, Count(Run(s, inputs)));
  }

  /** The ports on which clients are accepted, in order. */
  function Ports(outs: seq<Output>): seq<Word> {
    if outs == [] then []
    else (if outs[0].Accepted? then [outs[0].port] else []) + Ports(outs[1..])
  }

  lemma {:induction false} PortOfLink(s: Link, inputs: seq<Input>, k: nat)
    requires Good(s) && k < |Ports(Run(s, inputs))|
    ensures Ports(Run(s, inputs))[k] == NextN(s.port, PORT_START, PORT_END, if s.held then k + 1 else k)
    decreases |inputs|
  {
    var s' := Step(s, inputs[0]);
    var outs, rest := Run(s, inputs), Run(s', inputs[1..]);
    assert outs[1..] == rest;
    if outs[0].Accepted? {
      assert Ports(outs) == [s.listening] + Ports(rest);
      if k > 0 {
        PortOfLink(s', inputs[1..], k - 1);
      }
    } else {
      assert Ports(outs) == Ports(rest);
      PortOfLink(s', inputs[1..], k);
      if outs[0].Closed? {
        NextFirst(s.port, k);
      }
    }
  }

  /** Any ten consecutive links of a run come in on pairwise different ports. */
  lemma TenLinksDiffer(s: Link, inputs: seq<Input>, i: nat, j: nat)
    requires Good(s) && i < j < |Ports(Run(s, inputs))| && j < i + 10
    ensures Ports(Run(s, inputs))[i] != Ports(Run(s, inputs))[j]
  {
    PortOfLink(s, inputs, i);
    PortOfLink(s, inputs, j);
    if s.held {
      Distinct(s.port, PORT_START, PORT_END, i + 1, j + 1);
    } else {
      Distinct(s.port, PORT_START, PORT_END, i, j);
    }
  }
}
