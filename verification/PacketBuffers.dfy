/**
  The packet buffers (rpc_packets.cpp): frames are read into one shared buffer
  and replies are assembled in another, whatever they held before.
 */
module PacketBuffers {
  import opened Octets
  import opened RpcPackets

  // ---------- in ----------

  /** readBytes: as many of n bytes as the stream has. */
  method ReadBytes(buffer: array<Octet>, at: nat, n: nat, input: seq<Octet>) returns (rest: seq<Octet>)
    requires at + n <= buffer.Length
    modifies buffer
    ensures buffer[..at] == old(buffer[..at])
    ensures buffer[at..at + Min(n, |input|)] == input[..Min(n, |input|)]
    ensures buffer[at + Min(n, |input|)..] == old(buffer[at + Min(n, |input|)..])
    ensures rest == input[Min(n, |input|)..]
  {
    var k := Min(n, |input|);
    for i := 0 to k
      invariant buffer[..at] == old(buffer[..at])
      invariant buffer[at..at + i] == input[..i]
      invariant buffer[at + i..] == old(buffer[at + i..])
    {
      buffer[at + i] := input[i];
    }
    rest := input[k..];
  }

  lemma MarkBytes(b: seq<Octet>, input: seq<Octet>, k: nat)
    requires 4 <= |b| && k == Min(4, |input|)
    requires b[..k] == input[..k] && forall i :: k <= i < 4 ==> b[i] == NUL
    ensures b[..4] == Received(Zeros(4), input, 4)
  {
    assert b[..4][..k] == b[..k];
  }

  /** The record mark, with its bytes set to 0 first in case the read is cut short. */
  method ReadMark(buffer: array<Octet>, input: seq<Octet>) returns (len: nat, rest: seq<Octet>)
    requires buffer.Length >= 4
    modifies buffer
    ensures len == Announced(input) && rest == input[Min(4, |input|)..]
  {
    PutWord(buffer, 0, 0);
    ghost var zeroed := buffer[..];
    assert forall i :: 0 <= i < 4 ==> zeroed[i] == XdrWord(0)[i];
    rest := ReadBytes(buffer, 0, 4, input);
    ghost var k := Min(4, |input|);
    assert buffer[0..0 + k] == buffer[..][..k];
    forall i | k <= i < 4 ensures buffer[i] == NUL {
      assert buffer[i] == buffer[k..][i - k] == zeroed[k..][i - k];
    }
    MarkBytes(buffer[..], input, k);
    var word := GetWord(buffer, 0);
    assert buffer[0..4] == buffer[..][..4];
    len := word % FRAGMENT;
  }

  /** get_vxi_packet and get_bind_packet on a TCP stream. */
  method GetPacket(buffer: array<Octet>, input: seq<Octet>) returns (len: nat, rest: seq<Octet>)
    requires buffer.Length >= 8
    modifies buffer
    ensures var n := Announced(input);
            && len == (if n > 4 then Min(n, buffer.Length - 4) else n)
            && var asked := if n > 4 then len else 0;
            && rest == input[Min(4 + asked, |input|)..]
            && (|input| >= 4 + asked ==> buffer[4..4 + asked] == input[4..4 + asked])
  {
    len, rest := ReadMark(buffer, input);
    if len > 4 {
      len := Min(len, buffer.Length - 4);
      var behind := rest;
      rest := ReadBytes(buffer, 4, len, behind);
      Behind(input, behind, len);
    }
  }

  lemma Behind(input: seq<Octet>, behind: seq<Octet>, len: nat)
    requires behind == input[Min(4, |input|)..]
    ensures behind[Min(len, |behind|)..] == input[Min(4 + len, |input|)..]
    ensures |input| >= 4 + len ==> |behind| >= len && behind[..len] == input[4..4 + len]
  {
  }

  // ---------- out ----------

  /** Puts the next word behind the words ws that start at from. */
  method PutNext(buffer: array<Octet>, ghost from: nat, ghost ws: seq<Word>, at: nat, w: Word)
    requires at + 4 <= buffer.Length && at == from + 4 * |ws| && buffer[from..at] == Words(ws)
    modifies buffer
    ensures buffer[from..at + 4] == Words(ws + [w])
    ensures forall k :: at + 4 <= k < buffer.Length ==> buffer[k] == old(buffer[k])
  {
    PutWord(buffer, at, w);
    WordsConcat(ws, [w]);
    assert Words([w]) == XdrWord(w) + Words([]);
    assert buffer[from..at + 4] == buffer[from..at] + buffer[at..at + 4];
  }

  lemma HeaderSteps(xid: Word)
    ensures [] + [xid] == [xid] && [xid] + [REPLY] == [xid, REPLY]
    ensures [xid, REPLY] + [0] == [xid, REPLY, 0] && [xid, REPLY, 0] + [0] == [xid, REPLY, 0, 0]
    ensures [xid, REPLY, 0, 0] + [0] == HeaderWords(xid)
  {
  }

  /** fill_response_header for a packet that starts at from. */
  method FillResponseHeader(buffer: array<Octet>, from: nat, xid: Word)
    requires from + 20 <= buffer.Length
    modifies buffer
    ensures buffer[from..from + 20] == Words(HeaderWords(xid))
    ensures buffer[from + 20..] == old(buffer[from + 20..])
  {
    HeaderSteps(xid);
    assert buffer[from..from] == Words([]);
    PutNext(buffer, from, [], from, xid);
    PutNext(buffer, from, [xid], from + 4, REPLY);
    PutNext(buffer, from, [xid, REPLY], from + 8, 0);
    PutNext(buffer, from, [xid, REPLY, 0], from + 12, 0);
    PutNext(buffer, from, [xid, REPLY, 0, 0], from + 16, 0);
  }

  /** Zero bytes up to a multiple of four. */
  method PadPacket(buffer: array<Octet>, from: nat, len: nat) returns (n: nat)
    requires from + len + Padding(len) <= buffer.Length
    modifies buffer
    ensures n == len + Padding(len)
    ensures buffer[from..from + n] == old(buffer[from..from + len]) + Zeros(n - len)
  {
    n := len;
    while n % 4 > 0
      invariant len <= n <= len + Padding(len)
      invariant buffer[from..from + n] == old(buffer[from..from + len]) + Zeros(n - len)
      decreases len + Padding(len) - n
    {
      buffer[from + n] := NUL;
      assert buffer[from..from + n + 1] == buffer[from..from + n] + [NUL];
      n := n + 1;
    }
  }

  lemma ResultsBehind(before: seq<Octet>, after: seq<Octet>, len: nat, header: seq<Octet>, results: seq<Octet>)
    requires 24 <= 4 + len <= |before| == |after| && before[24..4 + len] == results
    requires after[4..24] == header && after[24..] == before[24..]
    ensures after[4..4 + len] == header + results
  {
    assert after[24..4 + len] == after[24..][..len - 20] == before[24..][..len - 20];
    assert after[4..4 + len] == after[4..24] + after[24..4 + len];
  }

  lemma MarkInFront(before: seq<Octet>, after: seq<Octet>, mark: seq<Octet>, n: nat)
    requires |mark| == 4 && 4 + n <= |before| && after == before[..0] + mark + before[4..]
    ensures |after| == |before| && after[..4 + n] == mark + before[4..4 + n]
  {
    assert before[4..][..n] == before[4..4 + n];
  }

  /**
    send_vxi_packet and send_bind_packet on TCP: the packet of len bytes behind
    the mark, whose results are in place already.
   */
  method SendPacket(buffer: array<Octet>, xid: Word, len: nat, ghost results: seq<Octet>) returns (sent: seq<Octet>)
    requires len == 20 + |results| && 4 + len + Padding(len) <= buffer.Length < FRAGMENT
    requires buffer[24..4 + len] == results
    modifies buffer
    ensures sent == Frame(Words(HeaderWords(xid)) + results + Zeros(Padding(|results|)))
  {
    ghost var before := buffer[..];
    FillResponseHeader(buffer, 4, xid);
    ResultsBehind(before, buffer[..], len, Words(HeaderWords(xid)), results);
    SamePadding(|results|);
    sent := SendMarked(buffer, len, Words(HeaderWords(xid)) + results);
  }

  /** The padding, the mark and the write, once the packet is in place. */
  method SendMarked(buffer: array<Octet>, len: nat, ghost packet: seq<Octet>) returns (sent: seq<Octet>)
    requires 4 + len + Padding(len) <= buffer.Length < FRAGMENT && buffer[4..4 + len] == packet
    modifies buffer
    ensures sent == Frame(packet + Zeros(Padding(len)))
  {
    var n := PadPacket(buffer, 4, len);
    ghost var padded := buffer[..];
    PutWord(buffer, 0, FRAGMENT + n);
    MarkInFront(padded, buffer[..], XdrWord(FRAGMENT + n), n);
    sent := buffer[..4 + n];
  }

  lemma SamePadding(n: nat)
    ensures Padding(20 + n) == Padding(n)
  {
  }
}
