/**
  The VXI-11 requests (rpc_packets.h:116-351) as values: the fields of a request
  body, the text a DEV_WRITE carries, and the reply and the calls it asks for.
 */
module VxiRequests {
  import opened Octets
  import opened Tokenizer
  import opened Scpi
  import opened RpcPackets

  /** A request with its transaction id, program and procedure. */
  type Body = b: seq<Octet> | 24 <= |b| witness Zeros(24)

  function Xid(b: Body): Word { WordAt(b, 0) }

  function Program(b: Body): Word { WordAt(b, 12) }

  function Procedure(b: Body): Word { WordAt(b, 20) }

  predicate Is(b: Body, procedure: Word) {
    Program(b) == VXI_11_CORE && Procedure(b) == procedure
  }

  function CreateLength(b: Body): Word
    requires |b| >= 56
  {
    WordAt(b, 52)
  }

  function WriteLength(b: Body): Word
    requires |b| >= 60
  {
    WordAt(b, 56)
  }

  /** s without the newlines at its end. */
  function Trimmed(s: seq<Octet>): (t: seq<Octet>)
    ensures |t| <= |s| && t == s[..|t|]
    ensures t != [] ==> t[|t| - 1] != '\n'
  {
    if s != [] && s[|s| - 1] == '\n' then Trimmed(s[..|s| - 1]) else s
  }

  predicate HasWriteData(b: Body) {
    |b| >= 60 && WriteLength(b) <= 191 && 60 + WriteLength(b) <= |b|
  }

  function WriteText(b: Body): seq<Octet>
    requires HasWriteData(b)
  {
    CText(Trimmed(b[60..60 + WriteLength(b)]))
  }

  /** The requests the server relies on: their fields are all there, and strings stay inside the buffer. */
  predicate InDomain(b: Body) {
    && |b| <= VXI_SIZE - 4
    && (Is(b, CREATE_LINK) ==> |b| >= 56 && CreateLength(b) <= 195)
    && (Is(b, DEV_WRITE) ==> HasWriteData(b) && TextDefined(WriteText(b)))
  }

  /** The domain, from the words of a request. */
  lemma DomainIs(b: Body)
    ensures InDomain(b) <==>
            && |b| <= 252
            && (WordAt(b, 12) == 0x607AF && WordAt(b, 20) == 10 ==> |b| >= 56 && WordAt(b, 52) <= 195)
            && (WordAt(b, 12) == 0x607AF && WordAt(b, 20) == 11 ==>
                  && |b| >= 60 && WordAt(b, 56) <= 191 && 60 + WordAt(b, 56) <= |b|
                  && TextDefined(CText(Trimmed(b[60..60 + WordAt(b, 56)]))))
  {
    hide TextDefined, CText, Trimmed;
  }

  /** A request for no program. */
  function NoRequest(): (b: Body)
    ensures InDomain(b)
  {
    var z: Body := Zeros(24);
    assert Program(z) == 0 by {
      var w := z[12..16];
      assert w[0] == NUL && w[1] == NUL && w[2] == NUL && w[3] == NUL;
    }
    z
  }

  type Request = b: Body | InDomain(b) witness NoRequest()

  function ReplyTo(b: Request, id: seq<Octet>): Reply {
    if Program(b) != VXI_11_CORE then Refused(PROG_UNAVAIL)
    else if Procedure(b) == CREATE_LINK then LinkCreated(0, 0, VXI_SIZE - 4)
    else if Procedure(b) == DEV_READ then DataRead(END_REASON, id)
    else if Procedure(b) == DEV_WRITE then DataWritten(WriteLength(b))
    else if Procedure(b) == DESTROY_LINK then LinkDestroyed
    else Refused(PROC_UNAVAIL)
  }

  /** What a request does to the parser: a DEV_WRITE leaves the outcome of its text, others leave all as it was. */
  function CallsOf(b: Request): seq<SetCall> {
    if Is(b, DEV_WRITE) then Parse(WriteText(b)).calls else []
  }

  function ChannelAfter(b: Request, channel: Word): Word {
    if Is(b, DEV_WRITE) then Parse(WriteText(b)).channel else channel
  }

  function ReadTypeAfter(b: Request, readType: ReadType): ReadType {
    if Is(b, DEV_WRITE) then Parse(WriteText(b)).readType else readType
  }

  /** All that the parser has done for a list of requests since power-up. */
  function CallsOfAll(bodies: seq<Request>): seq<SetCall> {
    if bodies == [] then [] else CallsOfAll(bodies[..|bodies| - 1]) + CallsOf(bodies[|bodies| - 1])
  }

  function ChannelAfterAll(bodies: seq<Request>): Word {
    if bodies == [] then 0
    else ChannelAfter(bodies[|bodies| - 1], ChannelAfterAll(bodies[..|bodies| - 1]))
  }

  function ReadTypeAfterAll(bodies: seq<Request>): ReadType {
    if bodies == [] then NoRead
    else ReadTypeAfter(bodies[|bodies| - 1], ReadTypeAfterAll(bodies[..|bodies| - 1]))
  }

  lemma OneMoreParsed(bodies: seq<Request>, b: Request)
    ensures CallsOfAll(bodies + [b]) == CallsOfAll(bodies) + CallsOf(b)
    ensures ChannelAfterAll(bodies + [b]) == ChannelAfter(b, ChannelAfterAll(bodies))
    ensures ReadTypeAfterAll(bodies + [b]) == ReadTypeAfter(b, ReadTypeAfterAll(bodies))
  {
    assert (bodies + [b])[..|bodies|] == bodies;
  }

  predicate IsId(id: seq<Octet>) {
    |id| <= 215 && NUL !in id
  }

  /** The bytes sent for a list of requests: one framed reply each, in order. */
  function Replies(bodies: seq<Request>, id: seq<Octet>): seq<Octet>
    requires IsId(id)
  {
    if bodies == [] then []
    else Replies(bodies[..|bodies| - 1], id) + ReplyFrame(bodies[|bodies| - 1], id)
  }

  /** Every encoding fits behind the mark in the send buffer. */
  lemma ReplyFits(b: Request, id: seq<Octet>)
    requires IsId(id)
    ensures var n := |Encode(Xid(b), ReplyTo(b, id))|; 24 <= n <= VXI_SIZE - 4 && n % 4 == 0
  {
    EncodingFits(Xid(b), ReplyTo(b, id));
  }

  lemma EncodingFits(xid: Word, r: Reply)
    requires r.DataRead? ==> |r.data| <= 215
    ensures 24 <= |Encode(xid, r)| <= VXI_SIZE - 4 && |Encode(xid, r)| % 4 == 0
  {
    EncodeLength(xid, r);
  }

  function ReplyFrame(b: Request, id: seq<Octet>): seq<Octet>
    requires IsId(id)
  {
    ReplyFits(b, id);
    Packet(Xid(b), ReplyTo(b, id))
  }

  function ReplyRecord(b: Request, id: seq<Octet>): (f: (bool, Record))
    requires IsId(id)
    ensures 5 <= |f.1| <= VXI_SIZE - 4
  {
    ReplyFits(b, id);
    (true, Encode(Xid(b), ReplyTo(b, id)))
  }

  /** The records a client finds among the bytes sent: one per request, in order. */
  function Records(bodies: seq<Request>, id: seq<Octet>): (fs: seq<(bool, Record)>)
    requires IsId(id)
    ensures |fs| == |bodies|
    ensures forall f :: f in fs ==> 5 <= |f.1| <= VXI_SIZE - 4
  {
    if bodies == [] then []
    else Records(bodies[..|bodies| - 1], id) + [ReplyRecord(bodies[|bodies| - 1], id)]
  }

  lemma {:induction false} StreamAppend(frames: seq<(bool, Record)>, f: (bool, Record))
    ensures Stream(frames + [f]) == Stream(frames) + Marked(f.0, f.1)
  {
    if frames == [] {
      assert frames + [f] == [f];
      assert [f][1..] == [];
    } else {
      assert (frames + [f])[1..] == frames[1..] + [f];
      StreamAppend(frames[1..], f);
    }
  }

  lemma {:induction false} RecordsInOrder(bodies: seq<Request>, id: seq<Octet>, n: nat)
    requires IsId(id) && n < |bodies|
    ensures Records(bodies, id)[n] == ReplyRecord(bodies[n], id)
  {
    if n < |bodies| - 1 {
      RecordsInOrder(bodies[..|bodies| - 1], id, n);
    }
  }

  lemma {:induction false} RecordsOfReplies(bodies: seq<Request>, id: seq<Octet>)
    requires IsId(id)
    ensures Stream(Records(bodies, id)) == Replies(bodies, id)
  {
    if bodies != [] {
      var front, b := bodies[..|bodies| - 1], bodies[|bodies| - 1];
      RecordsOfReplies(front, id);
      StreamAppend(Records(front, id), ReplyRecord(b, id));
      assert Marked(true, ReplyRecord(b, id).1) == ReplyFrame(b, id);
    }
  }

  // ---------- the replies, word by word ----------

  /** The results of a read: reason 4 (end), the length, the bytes, and zeros up to a whole word. */
  ghost predicate IsRead(s: seq<Octet>, data: seq<Octet>) {
    && |s| % 4 == 0 && 36 + |data| <= |s| < 40 + |data|
    && WordAt(s, 20) == 0 && WordAt(s, 24) == 0 && WordAt(s, 28) == 4 && WordAt(s, 32) == |data|
    && s[36..36 + |data|] == data && forall k :: 36 + |data| <= k < |s| ==> s[k] == '\0'
  }

  /**
    The record that answers a request, from the words of both (RFC 5531, section 9,
    and section B.6 of the VXIbus TCP/IP Instrument Protocol Specification): the
    transaction id is given back; another program is unavailable, status 1, and so
    is another procedure, status 3; a link gets the number 0, no abort port and 252
    bytes at most; a write is acknowledged with its length.
   */
  ghost predicate IsReply(s: seq<Octet>, b: Request, id: seq<Octet>) {
    && |s| >= 24 && WordAt(s, 0) == WordAt(b, 0) && WordAt(s, 4) == 1
    && WordAt(s, 8) == 0 && WordAt(s, 12) == 0 && WordAt(s, 16) == 0
    && if WordAt(b, 12) != 0x607AF then |s| == 24 && WordAt(s, 20) == 1
       else if WordAt(b, 20) == 10 then
         && |s| == 40 && WordAt(s, 20) == 0 && WordAt(s, 24) == 0
         && WordAt(s, 28) == 0 && WordAt(s, 32) == 0 && WordAt(s, 36) == 252
       else if WordAt(b, 20) == 11 then
         |s| == 32 && WordAt(s, 20) == 0 && WordAt(s, 24) == 0 && |b| >= 60 && WordAt(s, 28) == WordAt(b, 56)
       else if WordAt(b, 20) == 12 then |s| >= 36 && IsRead(s, id)
       else if WordAt(b, 20) == 23 then |s| == 28 && WordAt(s, 20) == 0 && WordAt(s, 24) == 0
       else |s| == 24 && WordAt(s, 20) == 3
  }

  lemma EncodedRead(xid: Word, id: seq<Octet>)
    requires IsId(id)
    ensures var s := Encode(xid, DataRead(END_REASON, id)); |s| >= 36 && IsRead(s, id)
  {
    var r := DataRead(END_REASON, id);
    StatusDecodes(xid, r);
    DataDecodes(xid, r);
    EncodeLength(xid, r);
    EncodedWords(xid, r);
  }

  lemma EncodedReply(xid: Word, r: Reply)
    requires !r.DataRead?
    ensures var s, n := Encode(xid, r), |StatusWords(r)|;
            && |s| == 20 + 4 * n
            && (n > 1 ==> WordAt(s, 24) == StatusWords(r)[1]) && (n > 2 ==> WordAt(s, 28) == StatusWords(r)[2])
            && (n > 3 ==> WordAt(s, 32) == StatusWords(r)[3]) && (n > 4 ==> WordAt(s, 36) == StatusWords(r)[4])
  {
    EncodeLength(xid, r);
    forall i | 5 <= i < 5 + |StatusWords(r)| ensures WordAt(Encode(xid, r), 4 * i) == StatusWords(r)[i - 5] {
      WordDecodes(xid, r, i);
    }
    var s := Encode(xid, r);
    assert |StatusWords(r)| > 1 ==> WordAt(s, 4 * 6) == StatusWords(r)[1];
    assert |StatusWords(r)| > 2 ==> WordAt(s, 4 * 7) == StatusWords(r)[2];
    assert |StatusWords(r)| > 3 ==> WordAt(s, 4 * 8) == StatusWords(r)[3];
    assert |StatusWords(r)| > 4 ==> WordAt(s, 4 * 9) == StatusWords(r)[4];
  }

  /** What is encoded for a request is its reply. */
  lemma ReplyIs(b: Request, id: seq<Octet>)
    requires IsId(id)
    ensures IsReply(Encode(Xid(b), ReplyTo(b, id)), b, id)
  {
    hide Encode;
    var r := ReplyTo(b, id);
    StatusDecodes(Xid(b), r);
    if r.DataRead? {
      EncodedRead(Xid(b), id);
    } else {
      EncodedReply(Xid(b), r);
    }
  }

  /** The bytes of the reply behind the mark of a last fragment (RFC 5531, section 11). */
  ghost predicate SendsReply(bytes: seq<Octet>, b: Request, id: seq<Octet>) {
    |bytes| >= 4 && WordAt(bytes, 0) == 0x8000_0000 + |bytes| - 4 && IsReply(bytes[4..], b, id)
  }

  lemma FrameSends(b: Request, id: seq<Octet>)
    requires IsId(id)
    ensures SendsReply(ReplyFrame(b, id), b, id)
  {
    ReplyIs(b, id);
    ReplyFits(b, id);
    var record := Encode(Xid(b), ReplyTo(b, id));
    FrameIs(record);
  }

  lemma FrameIs(record: Record)
    ensures var s := Frame(record); |s| == 4 + |record| && s[4..] == record && WordAt(s, 0) == 0x8000_0000 + |record|
  {
    WordRoundTrip(FRAGMENT + |record|);
    assert Frame(record)[0..4] == XdrWord(FRAGMENT + |record|);
  }

  lemma {:induction false} SameWords(s: seq<Octet>, t: seq<Octet>, n: nat)
    requires |s| >= 4 * n && |t| >= 4 * n && forall i :: 0 <= i < n ==> WordAt(s, 4 * i) == WordAt(t, 4 * i)
    ensures s[..4 * n] == t[..4 * n]
  {
    if n > 0 {
      SameWords(s, t, n - 1);
      var at := 4 * (n - 1);
      assert WordAt(s, at) == WordAt(t, at);
      MostSignificantFirst(0, s[at..at + 4]);
      MostSignificantFirst(0, t[at..at + 4]);
      assert s[..4 * n] == s[..at] + s[at..at + 4];
      assert t[..4 * n] == t[..at] + t[at..at + 4];
    }
  }

  ghost predicate SameHeader(s: seq<Octet>, t: seq<Octet>) {
    && |s| >= 24 && |t| >= 24
    && WordAt(s, 0) == WordAt(t, 0) && WordAt(s, 4) == WordAt(t, 4) && WordAt(s, 8) == WordAt(t, 8)
    && WordAt(s, 12) == WordAt(t, 12) && WordAt(s, 16) == WordAt(t, 16) && WordAt(s, 20) == WordAt(t, 20)
  }

  lemma SameRead(s: seq<Octet>, t: seq<Octet>, data: seq<Octet>)
    requires SameHeader(s, t) && |s| >= 36 && |t| >= 36 && IsRead(s, data) && IsRead(t, data)
    ensures s == t
  {
    forall i | 0 <= i < 9 ensures WordAt(s, 4 * i) == WordAt(t, 4 * i) {
      assert i == 0 || i == 1 || i == 2 || i == 3 || i == 4 || i == 5 || i == 6 || i == 7 || i == 8;
    }
    SameWords(s, t, 9);
    var k := 36 + |data|;
    assert |s| == |t|;
    ThreeParts(s, t, 36, k);
  }

  lemma ThreeParts(s: seq<Octet>, t: seq<Octet>, i: nat, k: nat)
    requires |s| == |t| && i <= k <= |s| && s[..i] == t[..i] && s[i..k] == t[i..k]
    requires forall j :: k <= j < |s| ==> s[j] == t[j]
    ensures s == t
  {
    forall j | 0 <= j < |s| ensures s[j] == t[j] {
      if j < i {
        assert s[..i][j] == s[j];
      } else if j < k {
        assert s[i..k][j - i] == s[j];
      }
    }
  }

  lemma SameShort(s: seq<Octet>, t: seq<Octet>, n: nat)
    requires SameHeader(s, t) && |s| == |t| == 4 * n && n <= 10
    requires n > 6 ==> WordAt(s, 24) == WordAt(t, 24)
    requires n > 7 ==> WordAt(s, 28) == WordAt(t, 28)
    requires n > 8 ==> WordAt(s, 32) == WordAt(t, 32)
    requires n > 9 ==> WordAt(s, 36) == WordAt(t, 36)
    ensures s == t
  {
    forall i | 0 <= i < n ensures WordAt(s, 4 * i) == WordAt(t, 4 * i) {
      assert i == 0 || i == 1 || i == 2 || i == 3 || i == 4 || i == 5 || i == 6 || i == 7 || i == 8 || i == 9;
    }
    SameWords(s, t, n);
    assert s[..4 * n] == s && t[..4 * n] == t;
  }

  /** These words leave no byte open: a request has one reply. */
  lemma OneReply(s: seq<Octet>, t: seq<Octet>, b: Request, id: seq<Octet>)
    requires IsReply(s, b, id) && IsReply(t, b, id)
    ensures s == t
  {
    hide WordOf;
    if WordAt(b, 12) == 0x607AF && WordAt(b, 20) == 12 {
      SameRead(s, t, id);
    } else {
      SameShort(s, t, |s| / 4);
    }
  }

  /** A client of VXI-11 decodes the reply by the procedure it called. */
  lemma ReplyDecodes(s: seq<Octet>, b: Request, id: seq<Octet>)
    requires IsReply(s, b, id)
    ensures var x, p := WordAt(b, 0), WordAt(b, 20);
            if WordAt(b, 12) != 0x607AF then Decode(p, s) == Some((x, Refused(1)))
            else if p == 10 then Decode(p, s) == Some((x, LinkCreated(0, 0, 252)))
            else if p == 11 then |b| >= 60 && Decode(p, s) == Some((x, DataWritten(WordAt(b, 56))))
            else if p == 12 then Decode(p, s) == Some((x, DataRead(4, id)))
            else if p == 23 then Decode(p, s) == Some((x, LinkDestroyed))
            else Decode(p, s) == Some((x, Refused(3)))
  {
  }

  /** What a request does besides: only a write of the VXI-11 program reaches the parser. */
  lemma OthersLeaveParser(b: Request, channel: Word, readType: ReadType)
    requires WordAt(b, 12) != 0x607AF || WordAt(b, 20) != 11
    ensures CallsOf(b) == [] && ChannelAfter(b, channel) == channel && ReadTypeAfter(b, readType) == readType
  {
  }

  /**
    The n-th record a client reads answers the n-th request: it carries its xid
    and the reply to it, and there are no others.
   */
  lemma NthReplyAnswersNthRequest(bodies: seq<Request>, id: seq<Octet>, n: nat)
    requires IsId(id) && n < |bodies|
    ensures |Bodies(Replies(bodies, id))| == |bodies|
    ensures IsReply(Bodies(Replies(bodies, id))[n], bodies[n], id)
    ensures Decode(Procedure(bodies[n]), Bodies(Replies(bodies, id))[n])
         == Some((Xid(bodies[n]), ReplyTo(bodies[n], id)))
  {
    RecordsOfReplies(bodies, id);
    RecordsInOrder(bodies, id, n);
    Framing(Records(bodies, id));
    ReplyIs(bodies[n], id);
    ReplyRoundTrip(Procedure(bodies[n]), Xid(bodies[n]), ReplyTo(bodies[n], id));
  }
}
