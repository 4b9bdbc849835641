/**
  RPC packets (rpc_packets.cpp, rpc_packets.h, rpc_enums.h): what a reply is, the
  bytes it is sent as, and how a stream falls apart into frames.
 */
module RpcPackets {
  import opened Octets

  const REPLY: Word := 1
  const SUCCESS: Word := 0
  const PROG_UNAVAIL: Word := 1
  const PROC_UNAVAIL: Word := 3
  const GARBAGE_ARGS: Word := 4
  const PORTMAP: Word := 0x186A0
  const VXI_11_CORE: Word := 0x607AF
  const GET_PORT: Word := 3
  const CREATE_LINK: Word := 10
  const DEV_WRITE: Word := 11
  const DEV_READ: Word := 12
  const DESTROY_LINK: Word := 23
  const END_REASON: Word := 4
  const FRAGMENT: Word := 0x8000_0000
  const VXI_SIZE: nat := 256

  // ---------- words ----------

  function Words(ws: seq<Word>): (s: seq<Octet>)
    ensures |s| == 4 * |ws|
  {
    if ws == [] then [] else XdrWord(ws[0]) + Words(ws[1..])
  }

  /** The word at a place of a byte string. */
  function WordAt(s: seq<Octet>, at: nat): Word
    requires at + 4 <= |s|
  {
    WordOf(s[at..at + 4])
  }

  lemma FieldInside(b: seq<Octet>, from: nat, body: seq<Octet>, at: nat)
    requires from + |body| <= |b| && b[from..from + |body|] == body && at + 4 <= |body|
    ensures b[from + at..from + at + 4] == body[at..at + 4]
  {
    forall k | from + at <= k < from + at + 4 ensures b[k] == body[k - from] {
      assert b[from..from + |body|][k - from] == b[k];
    }
  }

  lemma Behind(head: seq<Octet>, tail: seq<Octet>, at: nat)
    requires at + 4 <= |tail|
    ensures (head + tail)[|head| + at..|head| + at + 4] == tail[at..at + 4]
  {
  }

  lemma {:induction false} WordOfWords(ws: seq<Word>, i: nat, rest: seq<Octet>)
    requires i < |ws|
    ensures WordAt(Words(ws) + rest, 4 * i) == ws[i]
  {
    var s := Words(ws) + rest;
    if i == 0 {
      assert s[0..4] == XdrWord(ws[0]);
      WordRoundTrip(ws[0]);
    } else {
      var tail := Words(ws[1..]) + rest;
      WordOfWords(ws[1..], i - 1, rest);
      assert s == XdrWord(ws[0]) + tail;
      Behind(XdrWord(ws[0]), tail, 4 * (i - 1));
    }
  }

  // ---------- replies ----------

  datatype Reply =
    | Refused(status: Word)
    | LinkCreated(link: Word, abortPort: Word, maxReceive: Word)
    | LinkDestroyed
    | DataRead(reason: Word, data: seq<Octet>)
    | DataWritten(size: Word)

  /** An accepted reply starts with these words (RFC 5531, section 9). */
  function HeaderWords(xid: Word): seq<Word> {
    [xid, REPLY, 0, 0, 0]
  }

  /** The status and the words behind it. */
  function StatusWords(r: Reply): seq<Word>
    requires r.DataRead? ==> |r.data| < 0x1_0000_0000
  {
    match r
    case Refused(status) => [status]
    case LinkCreated(link, abortPort, maxReceive) => [SUCCESS, 0, link, abortPort, maxReceive]
    case LinkDestroyed => [SUCCESS, 0]
    case DataRead(reason, data) => [SUCCESS, 0, reason, |data|]
    case DataWritten(size) => [SUCCESS, 0, size]
  }

  function Zeros(n: nat): (s: seq<Octet>)
    ensures |s| == n && forall i :: 0 <= i < n ==> s[i] == NUL
  {
    seq(n, _ => NUL)
  }

  /** The bytes that fill up to a multiple of four (RFC 4506, section 4.11). */
  function Padding(n: nat): (k: nat)
    ensures k < 4 && (n + k) % 4 == 0
  {
    (4 - n % 4) % 4
  }

  function Results(r: Reply): seq<Octet>
    requires r.DataRead? ==> |r.data| < 0x1_0000_0000
  {
    Words(StatusWords(r)) + if r.DataRead? then r.data else []
  }

  /** The XDR encoding of a reply. */
  function Encode(xid: Word, r: Reply): seq<Octet>
    requires r.DataRead? ==> |r.data| < 0x1_0000_0000
  {
    Words(HeaderWords(xid)) + Results(r) + Zeros(Padding(|Results(r)|))
  }

  lemma PaddingShift(n: nat, words: nat)
    ensures Padding(4 * words + n) == Padding(n)
  {
    assert (4 * words + n) % 4 == n % 4;
  }

  /** An encoding is a whole number of words. */
  lemma EncodeLength(xid: Word, r: Reply)
    requires r.DataRead? ==> |r.data| < 0x1_0000_0000
    ensures |Encode(xid, r)| % 4 == 0
    ensures |Encode(xid, r)| == 20 + 4 * |StatusWords(r)| + if r.DataRead? then |r.data| + Padding(|r.data|) else 0
  {
    var n := if r.DataRead? then |r.data| else 0;
    assert |Results(r)| == 4 * |StatusWords(r)| + n;
    PaddingShift(n, |StatusWords(r)|);
    Multiple(n + Padding(n), 5 + |StatusWords(r)|);
    assert Padding(0) == 0;
  }

  lemma Multiple(n: nat, words: nat)
    requires n % 4 == 0
    ensures (4 * words + n) % 4 == 0
  {
  }

  /** A record whose length fits the mark. */
  type Record = b: seq<Octet> | |b| < FRAGMENT

  /** The record mark of a last fragment (RFC 5531, section 11) and the record. */
  function Frame(body: Record): seq<Octet> {
    XdrWord(FRAGMENT + |body|) + body
  }

  /** The bytes a reply is sent as. */
  function Packet(xid: Word, r: Reply): seq<Octet>
    requires r.DataRead? ==> |r.data| < VXI_SIZE
  {
    EncodeLength(xid, r);
    Frame(Encode(xid, r))
  }

  /**
    What a client that sent a procedure makes of the record it gets back: the
    fields stand where RFC 5531, section 9, and section B.6 of the VXIbus TCP/IP
    Instrument Protocol Specification put them.
   */
  function Decode(procedure: Word, s: seq<Octet>): Option<(Word, Reply)> {
    if |s| < 24 || WordAt(s, 4) != REPLY || WordAt(s, 8) != 0 || WordAt(s, 12) != 0 || WordAt(s, 16) != 0 then None
    else
      var xid, status := WordAt(s, 0), WordAt(s, 20);
      if status != SUCCESS then Some((xid, Refused(status)))
      else if procedure == CREATE_LINK then
        (if |s| >= 40 && WordAt(s, 24) == 0
         then Some((xid, LinkCreated(WordAt(s, 28), WordAt(s, 32), WordAt(s, 36)))) else None)
      else if procedure == DESTROY_LINK then
        (if |s| >= 28 && WordAt(s, 24) == 0 then Some((xid, LinkDestroyed)) else None)
      else if procedure == DEV_WRITE then
        (if |s| >= 32 && WordAt(s, 24) == 0 then Some((xid, DataWritten(WordAt(s, 28)))) else None)
      else if procedure == DEV_READ then
        (if |s| >= 36 && WordAt(s, 24) == 0 && |s| >= 36 + WordAt(s, 32)
         then Some((xid, DataRead(WordAt(s, 28), s[36..36 + WordAt(s, 32)]))) else None)
      else None
  }

  predicate Fits(procedure: Word, r: Reply) {
    match r
    case Refused(status) => status != SUCCESS
    case LinkCreated(_, _, _) => procedure == CREATE_LINK
    case LinkDestroyed => procedure == DESTROY_LINK
    case DataRead(_, data) => procedure == DEV_READ && |data| < 0x1_0000_0000
    case DataWritten(_) => procedure == DEV_WRITE
  }

  lemma {:induction false} WordsConcat(a: seq<Word>, b: seq<Word>)
    ensures Words(a + b) == Words(a) + Words(b)
  {
    if a == [] {
      assert a + b == b;
    } else {
      WordsConcat(a[1..], b);
      assert (a + b)[0] == a[0] && (a + b)[1..] == a[1..] + b;
      Associated(XdrWord(a[0]), Words(a[1..]), Words(b));
    }
  }

  lemma Associated(a: seq<Octet>, b: seq<Octet>, c: seq<Octet>)
    ensures a + (b + c) == a + b + c
  {
  }

  lemma EncodedWords(xid: Word, r: Reply)
    requires r.DataRead? ==> |r.data| < 0x1_0000_0000
    ensures Encode(xid, r) == Words(HeaderWords(xid) + StatusWords(r))
                              + ((if r.DataRead? then r.data else []) + Zeros(Padding(|Results(r)|)))
  {
    var data, pad := if r.DataRead? then r.data else [], Zeros(Padding(|Results(r)|));
    WordsConcat(HeaderWords(xid), StatusWords(r));
    Associated(Words(HeaderWords(xid)), Words(StatusWords(r)), data);
    Associated(Words(HeaderWords(xid) + StatusWords(r)), data, pad);
  }

  /** Word i of an encoding. */
  lemma WordDecodes(xid: Word, r: Reply, i: nat)
    requires (r.DataRead? ==> |r.data| < 0x1_0000_0000) && i < 5 + |StatusWords(r)|
    ensures |Encode(xid, r)| >= 20 + 4 * |StatusWords(r)|
    ensures WordAt(Encode(xid, r), 4 * i) == if i < 5 then HeaderWords(xid)[i] else StatusWords(r)[i - 5]
  {
    EncodedWords(xid, r);
    WordOfWords(HeaderWords(xid) + StatusWords(r), i,
                (if r.DataRead? then r.data else []) + Zeros(Padding(|Results(r)|)));
  }

  lemma StatusDecodes(xid: Word, r: Reply)
    requires r.DataRead? ==> |r.data| < 0x1_0000_0000
    ensures var s := Encode(xid, r);
            && |s| >= 20 + 4 * |StatusWords(r)| >= 24
            && WordAt(s, 0) == xid && WordAt(s, 4) == REPLY && WordAt(s, 20) == StatusWords(r)[0]
            && WordAt(s, 8) == WordAt(s, 12) == WordAt(s, 16) == 0
  {
    WordDecodes(xid, r, 0);
    WordDecodes(xid, r, 1);
    WordDecodes(xid, r, 2);
    WordDecodes(xid, r, 3);
    WordDecodes(xid, r, 4);
    WordDecodes(xid, r, 5);
  }

  lemma DataDecodes(xid: Word, r: Reply)
    requires r.DataRead? && |r.data| < 0x1_0000_0000
    ensures var s := Encode(xid, r);
            && |s| >= 36 + |r.data| && WordAt(s, 24) == 0 && WordAt(s, 28) == r.reason
            && WordAt(s, 32) == |r.data| && s[36..36 + |r.data|] == r.data
  {
    EncodedWords(xid, r);
    WordDecodes(xid, r, 6);
    WordDecodes(xid, r, 7);
    WordDecodes(xid, r, 8);
  }

  /** A client decodes every reply to the very value it encodes. */
  lemma ReplyRoundTrip(procedure: Word, xid: Word, r: Reply)
    requires Fits(procedure, r)
    ensures Decode(procedure, Encode(xid, r)) == Some((xid, r))
  {
    StatusDecodes(xid, r);
    match r
    case Refused(_) =>
    case LinkDestroyed =>
      WordDecodes(xid, r, 6);
    case DataWritten(_) =>
      WordDecodes(xid, r, 6);
      WordDecodes(xid, r, 7);
    case LinkCreated(_, _, _) =>
      WordDecodes(xid, r, 6);
      WordDecodes(xid, r, 7);
      WordDecodes(xid, r, 8);
      WordDecodes(xid, r, 9);
    case DataRead(_, _) =>
      DataDecodes(xid, r);
  }

  // ---------- frames on a stream ----------

  /** The first n bytes of the stream over what is in the buffer: a read that may be cut short. */
  function Received(before: seq<Octet>, input: seq<Octet>, n: nat): (s: seq<Octet>)
    requires n <= |before|
    ensures |s| == |before|
  {
    input[..Min(n, |input|)] + before[Min(n, |input|)..]
  }

  /** The length a frame announces, without the fragment bit; missing bytes of the mark count as 0. */
  function Announced(input: seq<Octet>): nat {
    WordOf(Received(Zeros(4), input, 4)) % FRAGMENT
  }

  /** The body bytes get_vxi_packet asks for. */
  function Asked(input: seq<Octet>): nat {
    var n := Announced(input);
    if n > 4 then Min(n, VXI_SIZE - 4) else 0
  }

  function AfterFrame(input: seq<Octet>): seq<Octet> {
    input[Min(4 + Asked(input), |input|)..]
  }

  /** A record with any fragment bit. */
  function Marked(last: bool, body: Record): (s: seq<Octet>)
    ensures |s| == 4 + |body|
  {
    XdrWord((if last then FRAGMENT else 0) + |body|) + body
  }

  lemma MarkRead(last: bool, body: Record, rest: seq<Octet>)
    ensures Announced(Marked(last, body) + rest) == |body|
  {
    var s := Marked(last, body) + rest;
    var w := (if last then FRAGMENT else 0) + |body|;
    assert Received(Zeros(4), s, 4) == XdrWord(w);
    WordRoundTrip(w);
  }

  /** The top bit of the mark is no part of the length, and a body of more than 4 bytes is read up to 252 of them. */
  lemma MarkExact(w: Word, rest: seq<Octet>)
    ensures Announced(XdrWord(w) + rest) == w % 0x8000_0000
    ensures var n := w % 0x8000_0000; Asked(XdrWord(w) + rest) == if n <= 4 then 0 else if n < 252 then n else 252
  {
    assert Received(Zeros(4), XdrWord(w) + rest, 4) == XdrWord(w);
    WordRoundTrip(w);
  }

  /** One call takes a whole record off the stream just when its body is empty or of 5 to 252 bytes. */
  lemma WholeFrame(last: bool, body: Record, rest: seq<Octet>)
    ensures AfterFrame(Marked(last, body) + rest) == rest <==>
            |body| == 0 || 5 <= |body| <= 252
  {
    var s := Marked(last, body) + rest;
    MarkRead(last, body, rest);
    if |body| == 0 || 5 <= |body| <= VXI_SIZE - 4 {
      assert s[4 + |body|..] == rest;
    }
  }

  function Stream(frames: seq<(bool, Record)>): seq<Octet> {
    if frames == [] then [] else Marked(frames[0].0, frames[0].1) + Stream(frames[1..])
  }

  /** The bodies that repeated calls find on a stream. */
  function Bodies(input: seq<Octet>): seq<seq<Octet>>
    decreases |input|
  {
    if input == [] then []
    else [input[Min(4, |input|)..Min(4 + Asked(input), |input|)]] + Bodies(AfterFrame(input))
  }

  /** Framing: a stream of records falls apart into exactly their bodies, in order. */
  lemma {:induction false} Framing(frames: seq<(bool, Record)>)
    requires forall f :: f in frames ==> 5 <= |f.1| <= VXI_SIZE - 4
    ensures |Bodies(Stream(frames))| == |frames|
    ensures forall i :: 0 <= i < |frames| ==> Bodies(Stream(frames))[i] == frames[i].1
  {
    if frames != [] {
      var last, body, rest := frames[0].0, frames[0].1, Stream(frames[1..]);
      var s := Marked(last, body) + rest;
      MarkRead(last, body, rest);
      WholeFrame(last, body, rest);
      Framing(frames[1..]);
      assert s[4..4 + |body|] == body;
    }
  }
}
