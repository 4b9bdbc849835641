/**
  Splitting text on one delimiter, as a pure function and as the in-place
  strtok_r of the C library. Every delimiter string of scpi.h holds one character.
 */
module Tokenizer {
  import opened Octets

  // ---------- the pure splitter ----------

  /** The fields between the delimiters of s, empty ones included. */
  function Fields(s: string, d: char): (fs: seq<string>)
    ensures |fs| > 0
  {
    if s == [] then [[]]
    else
      var fs := Fields(s[1..], d);
      if s[0] == d then [[]] + fs else [[s[0]] + fs[0]] + fs[1..]
  }

  function Join(fs: seq<string>, d: char): string {
    if |fs| == 0 then []
    else if |fs| == 1 then fs[0]
    else fs[0] + [d] + Join(fs[1..], d)
  }

  function NonEmpty(fs: seq<string>): (ts: seq<string>)
    ensures forall t :: t in ts <==> t in fs && t != []
  {
    if fs == [] then []
    else if fs[0] == [] then NonEmpty(fs[1..])
    else [fs[0]] + NonEmpty(fs[1..])
  }

  /** The tokens of s: its fields without the empty ones. */
  function Tokens(s: string, d: char): seq<string> {
    NonEmpty(Fields(s, d))
  }

  /** Fields splits: gluing the fields back together gives the text, and no field holds the delimiter. */
  lemma {:induction false} FieldsJoin(s: string, d: char)
    ensures Join(Fields(s, d), d) == s
    ensures forall f :: f in Fields(s, d) ==> d !in f
  {
    if s != [] {
      FieldsJoin(s[1..], d);
      var fs := Fields(s[1..], d);
      assert s == [s[0]] + s[1..];
      if s[0] == d {
        assert Fields(s, d)[1..] == fs;
      } else {
        assert Fields(s, d)[1..] == fs[1..];
      }
    }
  }

  // ---------- one token at a time ----------

  /** The first place from i on where s holds no delimiter. */
  function Skip(s: string, d: char, i: nat): (k: nat)
    requires i <= |s|
    ensures i <= k <= |s|
    ensures forall j :: i <= j < k ==> s[j] == d
    ensures k < |s| ==> s[k] != d
    decreases |s| - i
  {
    if i == |s| || s[i] != d then i else Skip(s, d, i + 1)
  }

  /** The first place from i on where s holds a delimiter. */
  function Span(s: string, d: char, i: nat): (k: nat)
    requires i <= |s|
    ensures i <= k <= |s|
    ensures forall j :: i <= j < k ==> s[j] != d
    ensures k < |s| ==> s[k] == d
    decreases |s| - i
  {
    if i == |s| || s[i] == d then i else Span(s, d, i + 1)
  }

  predicate HasToken(s: string, d: char) {
    Skip(s, d, 0) < |s|
  }

  /** The first token of s, and the text after the delimiter that ends it. */
  function Head(s: string, d: char): string {
    var k := Skip(s, d, 0);
    s[k..Span(s, d, k)]
  }

  function Tail(s: string, d: char): string {
    s[Min(Span(s, d, Skip(s, d, 0)) + 1, |s|)..]
  }

  lemma {:induction false} FieldsSpan(s: string, d: char)
    ensures var k := Span(s, d, 0);
            Fields(s, d) == if k == |s| then [s] else [s[..k]] + Fields(s[k + 1..], d)
  {
    if s != [] && s[0] != d {
      FieldsSpan(s[1..], d);
      var k := Span(s[1..], d, 0);
      assert Span(s, d, 0) == k + 1;
      if k < |s| - 1 {
        assert s[1..][k + 1..] == s[k + 2..];
        assert s[..k + 1] == [s[0]] + s[1..][..k];
      } else {
        assert s == [s[0]] + s[1..];
      }
    }
  }

  lemma NonEmptyCons(f: string, fs: seq<string>)
    ensures NonEmpty([f] + fs) == if f == [] then NonEmpty(fs) else [f] + NonEmpty(fs)
  {
    assert ([f] + fs)[1..] == fs;
  }

  lemma NoTokens(d: char)
    ensures Tokens([], d) == []
  {
    assert NonEmpty([[]]) == NonEmpty([[]][1..]);
  }

  lemma DropDelimiter(s: string, d: char)
    requires s != [] && s[0] == d
    ensures HasToken(s, d) <==> HasToken(s[1..], d)
    ensures Head(s, d) == Head(s[1..], d) && Tail(s, d) == Tail(s[1..], d)
  {
    var u := s[1..];
    var k := Skip(u, d, 0);
    assert Skip(s, d, 0) == k + 1;
    assert Span(s, d, k + 1) == Span(u, d, k) + 1;
  }

  /** Taking the head and the tail again and again gives exactly the tokens. */
  lemma {:induction false} FirstToken(s: string, d: char)
    ensures Tokens(s, d) == if HasToken(s, d) then [Head(s, d)] + Tokens(Tail(s, d), d) else []
    ensures HasToken(s, d) ==> |Tail(s, d)| < |s|
  {
    NoTokens(d);
    if s == [] {
    } else if s[0] == d {
      FirstToken(s[1..], d);
      NonEmptyCons([], Fields(s[1..], d));
      DropDelimiter(s, d);
    } else {
      FieldsSpan(s, d);
      var k := Span(s, d, 0);
      assert Head(s, d) == s[..k];
      if k < |s| {
        NonEmptyCons(s[..k], Fields(s[k + 1..], d));
      } else {
        assert s[..k] == s && [s] == [s] + [];
        NonEmptyCons(s, []);
        assert Tail(s, d) == [];
      }
    }
  }

  /** Fields undoes Join on every list of delimiter-free texts, so it is the only splitter. */
  lemma {:induction false} JoinFields(fs: seq<string>, d: char)
    requires |fs| > 0
    requires forall f :: f in fs ==> d !in f
    ensures Fields(Join(fs, d), d) == fs
  {
    var s := Join(fs, d);
    FieldsSpan(s, d);
    assert forall i :: 0 <= i < |fs[0]| ==> fs[0][i] in fs[0] && s[i] == fs[0][i];
    if |fs| > 1 {
      assert s[|fs[0]|] == d;
      assert s[..|fs[0]|] == fs[0] && s[|fs[0]| + 1..] == Join(fs[1..], d);
      JoinFields(fs[1..], d);
    }
  }

  /** f between leading delimiters and one more delimiter is the first token. */
  lemma HeadTail(lead: string, f: string, d: char, rest: string)
    requires (forall i :: 0 <= i < |lead| ==> lead[i] == d) && f != [] && d !in f
    ensures var s := lead + f + [d] + rest; HasToken(s, d) && Head(s, d) == f && Tail(s, d) == rest
    ensures var s := lead + f; HasToken(s, d) && Head(s, d) == f && Tail(s, d) == []
  {
    var k := |lead|;
    assert forall i :: 0 <= i < |f| ==> f[i] in f;
    var s := lead + f + [d] + rest;
    assert s[k] == f[0] && s[k + |f|] == d;
    assert Skip(s, d, 0) == k;
    assert Span(s, d, k) == k + |f|;
    var s' := lead + f;
    assert s'[k] == f[0];
    assert Skip(s', d, 0) == k;
    assert Span(s', d, k) == k + |f|;
  }

  lemma FirstField(f: string, d: char, rest: string)
    requires f != [] && d !in f
    ensures var s := f + [d] + rest; HasToken(s, d) && Head(s, d) == f && Tail(s, d) == rest
  {
    assert [] + f == f;
    HeadTail([], f, d, rest);
  }

  // ---------- C strings in a buffer ----------

  /** b[start..end] is a C string: end is its terminator and the first NUL from start on. */
  ghost predicate IsCString(b: seq<Octet>, start: nat, end: nat) {
    start <= end < |b| && b[end] == NUL && forall k :: start <= k < end ==> b[k] != NUL
  }

  /** The C string at the start of s. */
  function CText(s: string): string {
    s[..Span(s, NUL, 0)]
  }

  predicate IsDelimiter(c: char) {
    c == ':' || c == ';' || c == ' ' || c == ','
  }

  /** after is before with some of the delimiters in lo..hi replaced by NUL. */
  ghost predicate CutsOnly(before: seq<Octet>, after: seq<Octet>, lo: nat, hi: nat) {
    |after| == |before| &&
    forall k :: 0 <= k < |before| ==>
                  after[k] == before[k] || (lo <= k < hi && after[k] == NUL && IsDelimiter(before[k]))
  }

  /** Where the head of the text of a C string starts and ends. */
  ghost function HeadStart(b: seq<Octet>, start: nat, d: Octet, end: nat): (t: nat)
    requires start <= end <= |b|
    ensures start <= t <= end
  {
    start + Skip(b[start..end], d, 0)
  }

  ghost function HeadEnd(b: seq<Octet>, start: nat, d: Octet, end: nat): (e: nat)
    requires start <= end <= |b|
    ensures HeadStart(b, start, d, end) <= e <= end
  {
    start + Span(b[start..end], d, Skip(b[start..end], d, 0))
  }

  /** Overwriting the end of the head with NUL leaves two C strings, the head and the tail. */
  lemma CutHead(b: seq<Octet>, start: nat, d: Octet, end: nat)
    requires IsCString(b, start, end) && HasToken(b[start..end], d)
    ensures var t, e := HeadStart(b, start, d, end), HeadEnd(b, start, d, end);
            var after, context := b[e := NUL], Min(e + 1, end);
            && t < e && (e < end ==> b[e] == d)
            && IsCString(after, t, e) && after[t..e] == Head(b[start..end], d)
            && IsCString(after, context, end) && after[context..end] == Tail(b[start..end], d)
  {
    var t, e := HeadStart(b, start, d, end), HeadEnd(b, start, d, end);
    CutSlices(b, t, e, end);
  }

  lemma CutSlices(b: seq<Octet>, t: nat, e: nat, end: nat)
    requires t < e <= end && IsCString(b, t, end)
    ensures var after, context := b[e := NUL], Min(e + 1, end);
            && IsCString(after, t, e) && after[t..e] == b[t..e]
            && IsCString(after, context, end) && after[context..end] == b[context..end]
  {
  }

  /** The length of a C string, as a scan for its terminator finds it. */
  method CStringEnd(buffer: array<Octet>, start: nat, ghost end: nat) returns (e: nat)
    requires IsCString(buffer[..], start, end)
    ensures e == end
  {
    e := start;
    while buffer[e] != NUL
      invariant start <= e <= end
      decreases end - e
    {
      e := e + 1;
    }
  }

  /** strspn: the first character from start on that is no delimiter. */
  method SkipEnd(buffer: array<Octet>, start: nat, d: Octet, ghost end: nat) returns (i: nat)
    requires IsCString(buffer[..], start, end) && d != NUL
    ensures i == HeadStart(buffer[..], start, d, end)
  {
    ghost var s := buffer[..][start..end];
    i := start;
    while buffer[i] == d
      invariant start <= i <= end
      invariant i - start <= Skip(s, d, 0)
      decreases end - i
    {
      assert s[i - start] == d;
      i := i + 1;
    }
    assert i < end ==> s[i - start] == buffer[i];
  }

  /** strcspn: the first delimiter or terminator from start on. */
  method SpanEnd(buffer: array<Octet>, ghost from: nat, start: nat, d: Octet, ghost end: nat) returns (e: nat)
    requires from <= start && IsCString(buffer[..], from, end) && start <= end
    ensures e == from + Span(buffer[..][from..end], d, start - from)
  {
    ghost var s := buffer[..][from..end];
    e := start;
    while buffer[e] != d && buffer[e] != NUL
      invariant start <= e <= end
      invariant e - from <= Span(s, d, start - from)
      decreases end - e
    {
      assert s[e - from] == buffer[e];
      e := e + 1;
    }
    assert e < end ==> s[e - from] == buffer[e];
  }

  /**
    strtok_r: skip delimiters, cut the token off by overwriting the delimiter
    behind it, and remember where the rest starts. A start of NULL in the source
    is the context of the call before it here. Only the cut changes.
   */
  method StrtokR(buffer: array<Octet>, start: nat, d: Octet, ghost end: nat)
    returns (token: Option<nat>, context: nat)
    requires IsCString(buffer[..], start, end) && d != NUL
    modifies buffer
    ensures token.Some? <==> HasToken(old(buffer[..])[start..end], d)
    ensures token.None? ==> buffer[..] == old(buffer[..]) && context == end
    ensures token.Some? ==>
              var e := HeadEnd(old(buffer[..]), start, d, end);
              && token.value == HeadStart(old(buffer[..]), start, d, end)
              && buffer[..] == old(buffer[..])[e := NUL]
              && context == Min(e + 1, end)
  {
    var i := SkipEnd(buffer, start, d, end);
    if buffer[i] == NUL {
      return None, i;
    }
    var j := SpanEnd(buffer, start, i, d, end);
    if buffer[j] == NUL {
      return Some(i), j;
    }
    buffer[j] := NUL;
    return Some(i), j + 1;
  }
}
