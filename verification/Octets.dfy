/**
  Bytes, 32-bit words and the big-endian overlay of the packet buffers
  (utilities.h). A byte is a character below 256, so that one array can be seen
  both as packet data and as C strings, as in the source.
 */
module Octets {

  datatype Option<+T> = None | Some(value: T)

  type Octet = c: char | c as int < 256 witness '\0'

  const NUL: Octet := '\0'

  /** uint32_t */
  type Word = w: nat | w < 0x1_0000_0000

  function Min(a: int, b: int): int {
    if a <= b then a else b
  }

  // ---------- the memory image of a word ----------

  /** The swap of the four bytes of a word; masks and shifts are written as arithmetic. */
  function Byteswap(w: Word): Word {
    w % 0x100 * 0x100_0000
    + w / 0x100 % 0x100 * 0x1_0000
    + w / 0x1_0000 % 0x100 * 0x100
    + w / 0x100_0000
  }

  /** The bytes of a word as a little-endian processor stores them. */
  function StoreNative(w: Word): (s: seq<Octet>)
    ensures |s| == 4
  {
    [(w % 0x100) as char, (w / 0x100 % 0x100) as char, (w / 0x1_0000 % 0x100) as char, (w / 0x100_0000) as char]
  }

  function LoadNative(s: seq<Octet>): Word
    requires |s| == 4
  {
    s[0] as int + s[1] as int * 0x100 + s[2] as int * 0x1_0000 + s[3] as int * 0x100_0000
  }

  /** The XDR form of a word (RFC 4506, section 4.2): most significant byte first. */
  function XdrWord(w: Word): (s: seq<Octet>)
    ensures |s| == 4
  {
    [(w / 0x100_0000) as char, (w / 0x1_0000 % 0x100) as char, (w / 0x100 % 0x100) as char, (w % 0x100) as char]
  }

  function WordOf(s: seq<Octet>): Word
    requires |s| == 4
  {
    s[0] as int * 0x100_0000 + s[1] as int * 0x1_0000 + s[2] as int * 0x100 + s[3] as int
  }

  lemma Digits256(w: Word)
    ensures w / 0x100_0000 < 0x100
    ensures w / 0x100_0000 * 0x100_0000 + w / 0x1_0000 % 0x100 * 0x1_0000 + w / 0x100 % 0x100 * 0x100 + w % 0x100 == w
  {
    var q := w / 0x100;
    assert w == 0x100 * q + w % 0x100;
    assert q == 0x100 * (w / 0x1_0000) + q % 0x100;
    assert w / 0x1_0000 == 0x100 * (w / 0x100_0000) + w / 0x1_0000 % 0x100;
  }

  lemma WordRoundTrip(w: Word)
    ensures WordOf(XdrWord(w)) == w
  {
    Digits256(w);
  }

  lemma Last8(hi: nat, lo: nat)
    requires lo < 0x100
    ensures (hi * 0x100 + lo) / 0x100 == hi && (hi * 0x100 + lo) % 0x100 == lo
  {
  }

  lemma Last16(hi: nat, lo: nat)
    requires lo < 0x1_0000
    ensures (hi * 0x1_0000 + lo) / 0x1_0000 == hi
  {
  }

  lemma Last24(hi: nat, lo: nat)
    requires lo < 0x100_0000
    ensures (hi * 0x100_0000 + lo) / 0x100_0000 == hi
  {
  }

  /** The four bytes of a word are its digits to the base 256. */
  lemma FourBytes(w: Word, a: nat, b: nat, c: nat, d: nat)
    requires a < 0x100 && b < 0x100 && c < 0x100 && d < 0x100
    requires w == a * 0x100_0000 + b * 0x1_0000 + c * 0x100 + d
    ensures w % 0x100 == d && w / 0x100 % 0x100 == c
    ensures w / 0x1_0000 % 0x100 == b && w / 0x100_0000 == a
  {
    Last8(a * 0x1_0000 + b * 0x100 + c, d);
    Last8(a * 0x100 + b, c);
    Last16(a * 0x100 + b, c * 0x100 + d);
    Last8(a, b);
    Last24(a, b * 0x1_0000 + c * 0x100 + d);
  }

  /** The first byte weighs most, and every four bytes are the form of the word they give. */
  lemma MostSignificantFirst(w: Word, s: seq<Octet>)
    requires |s| == 4
    ensures var x := XdrWord(w);
            w == x[0] as int * 0x100_0000 + x[1] as int * 0x1_0000 + x[2] as int * 0x100 + x[3] as int
    ensures XdrWord(WordOf(s)) == s
  {
    Digits256(w);
    FourBytes(WordOf(s), s[0] as int, s[1] as int, s[2] as int, s[3] as int);
  }

  /** Swapping and then storing natively puts the XDR form in memory. */
  lemma StoreSwapped(w: Word)
    ensures StoreNative(Byteswap(w)) == XdrWord(w)
  {
    FourBytes(Byteswap(w), w % 0x100, w / 0x100 % 0x100, w / 0x1_0000 % 0x100, w / 0x100_0000);
  }

  /** Loading natively and then swapping reads the XDR form. */
  lemma LoadSwapped(s: seq<Octet>)
    requires |s| == 4
    ensures Byteswap(LoadNative(s)) == WordOf(s)
  {
    FourBytes(LoadNative(s), s[3] as int, s[2] as int, s[1] as int, s[0] as int);
  }

  /** Reading a big_endian_32_t field of an overlaid struct. */
  method GetWord(buffer: array<Octet>, at: nat) returns (w: Word)
    requires at + 4 <= buffer.Length
    ensures w == WordOf(buffer[at..at + 4])
  {
    var image: Word := LoadNative(buffer[at..at + 4]);
    LoadSwapped(buffer[at..at + 4]);
    w := Byteswap(image);
  }

  /** Assigning to a big_endian_32_t field of an overlaid struct. */
  method PutWord(buffer: array<Octet>, at: nat, w: Word)
    requires at + 4 <= buffer.Length
    modifies buffer
    ensures buffer[..] == old(buffer[..at]) + XdrWord(w) + old(buffer[at + 4..])
  {
    StoreSwapped(w);
    StoreFour(buffer, at, StoreNative(Byteswap(w)));
  }

  method StoreFour(buffer: array<Octet>, at: nat, s: seq<Octet>)
    requires at + 4 <= buffer.Length && |s| == 4
    modifies buffer
    ensures buffer[..] == old(buffer[..at]) + s + old(buffer[at + 4..])
  {
    buffer[at], buffer[at + 1], buffer[at + 2], buffer[at + 3] := s[0], s[1], s[2], s[3];
  }
}
