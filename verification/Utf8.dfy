/**
 UTF-8 byte streams (RFC 3629) read through a tail buffer.
 */
module Utf8 {
  import opened TailBuffers

  /** A continuation byte: 10xxxxxx. */
  predicate IsTail(b: byte) {
    0x80 <= b <= 0xBF
  }

  /** The octet sequences of section 4 of RFC 3629, which encode exactly one character. */
  predicate IsChar(c: seq<byte>) {
    || (|c| == 1 && c[0] <= 0x7F)
    || (|c| == 2 && 0xC2 <= c[0] <= 0xDF && IsTail(c[1]))
    || (|c| == 3 && IsTail(c[1]) && IsTail(c[2]) && (
          || (c[0] == 0xE0 && 0xA0 <= c[1])
          || 0xE1 <= c[0] <= 0xEC
          || (c[0] == 0xED && c[1] <= 0x9F)
          || 0xEE <= c[0] <= 0xEF))
    || (|c| == 4 && IsTail(c[1]) && IsTail(c[2]) && IsTail(c[3]) && (
          || (c[0] == 0xF0 && 0x90 <= c[1])
          || 0xF1 <= c[0] <= 0xF3
          || (c[0] == 0xF4 && c[1] <= 0x8F)))
  }

  /** The characters: all code points but the surrogates. */
  predicate IsScalar(v: int) {
    0 <= v < 0x110000 && !(0xD800 <= v < 0xE000)
  }

  /** Section 3 of RFC 3629: the bits of the number, six to each continuation byte, in as few bytes as will hold them. */
  function Encoded(v: nat): seq<int> {
    if v < 0x80 then [v]
    else if v < 0x800 then [0xC0 + v / 64, 0x80 + v % 64]
    else if v < 0x10000 then [0xE0 + v / 4096, 0x80 + v / 64 % 64, 0x80 + v % 64]
    else [0xF0 + v / 262144, 0x80 + v / 4096 % 64, 0x80 + v / 64 % 64, 0x80 + v % 64]
  }

  function Octets(c: seq<byte>): (r: seq<int>)
    ensures |r| == |c| && forall i :: 0 <= i < |r| ==> r[i] == c[i] as int
  {
    seq(|c|, i requires 0 <= i < |c| => c[i] as int)
  }

  /** The number whose bits the bytes hold. */
  function Decoded(o: seq<int>): int {
    if |o| == 1 then o[0]
    else if |o| == 2 then (o[0] - 0xC0) * 64 + (o[1] - 0x80)
    else if |o| == 3 then (o[0] - 0xE0) * 4096 + (o[1] - 0x80) * 64 + (o[2] - 0x80)
    else if |o| == 4 then (o[0] - 0xF0) * 262144 + (o[1] - 0x80) * 4096 + (o[2] - 0x80) * 64 + (o[3] - 0x80)
    else -1
  }

  lemma {:induction false} TailOrder(b: byte)
    ensures IsTail(b) <==> 0x80 <= b as int < 0xC0
  {
  }

  /** The octet sequences as numbers. */
  predicate IsCharOf(o: seq<int>) {
    && (forall i :: 1 <= i < |o| ==> 0x80 <= o[i] < 0xC0)
    && match |o|
       case 1 => 0 <= o[0] < 0x80
       case 2 => 0xC2 <= o[0] < 0xE0
       case 3 => 0xE0 <= o[0] < 0xF0 && (o[0] == 0xE0 ==> 0xA0 <= o[1]) && (o[0] == 0xED ==> o[1] < 0xA0)
       case 4 => 0xF0 <= o[0] < 0xF5 && (o[0] == 0xF0 ==> 0x90 <= o[1]) && (o[0] == 0xF4 ==> o[1] < 0x90)
       case _ => false
  }

  lemma {:induction false} CharAsNumbers(c: seq<byte>)
    ensures IsChar(c) <==> IsCharOf(Octets(c))
  {
    forall i | 0 <= i < |c|
      ensures IsTail(c[i]) <==> 0x80 <= Octets(c)[i] < 0xC0
    {
      TailOrder(c[i]);
    }
    if |c| > 0 {
      LeadOrder(c[0]);
    }
    if |c| > 1 {
      SecondOrder(c[1]);
    }
  }

  lemma {:induction false} LeadOrder(b: byte)
    ensures var n := b as int;
            && (b <= 0x7F <==> n < 0x80) && (0xC2 <= b <= 0xDF <==> 0xC2 <= n < 0xE0) && (b == 0xE0 <==> n == 0xE0)
            && (0xE1 <= b <= 0xEC <==> 0xE1 <= n < 0xED) && (b == 0xED <==> n == 0xED) && (0xEE <= b <= 0xEF <==> 0xEE <= n < 0xF0)
            && (b == 0xF0 <==> n == 0xF0) && (0xF1 <= b <= 0xF3 <==> 0xF1 <= n < 0xF4) && (b == 0xF4 <==> n == 0xF4)
  {
  }

  lemma {:induction false} SecondOrder(b: byte)
    ensures var n := b as int;
            (0xA0 <= b <==> 0xA0 <= n) && (b <= 0x9F <==> n < 0xA0) && (0x90 <= b <==> 0x90 <= n) && (b <= 0x8F <==> n < 0x90)
  {
  }

  lemma {:induction false} EncodedIsChar(v: nat)
    requires IsScalar(v)
    ensures IsCharOf(Encoded(v))
  {
  }

  lemma {:induction false} CharIsEncoded(o: seq<int>)
    requires IsCharOf(o)
    ensures IsScalar(Decoded(o)) && Encoded(Decoded(o)) == o
  {
    if |o| == 2 {
      TakeApart(o[0] - 0xC0, o[1] - 0x80);
    } else if |o| == 3 {
      ThreeBytes(o);
    } else if |o| == 4 {
      FourBytes(o);
    }
  }

  lemma {:induction false} ThreeBytes(o: seq<int>)
    requires IsCharOf(o) && |o| == 3
    ensures IsScalar(Decoded(o)) && Encoded(Decoded(o)) == o
  {
    TakeApart((o[0] - 0xE0) * 64 + (o[1] - 0x80), o[2] - 0x80);
    TakeApart(o[0] - 0xE0, o[1] - 0x80);
  }

  lemma {:induction false} FourBytes(o: seq<int>)
    requires IsCharOf(o) && |o| == 4
    ensures IsScalar(Decoded(o)) && Encoded(Decoded(o)) == o
  {
    TakeApart((o[0] - 0xF0) * 4096 + (o[1] - 0x80) * 64 + (o[2] - 0x80), o[3] - 0x80);
    TakeApart((o[0] - 0xF0) * 64 + (o[1] - 0x80), o[2] - 0x80);
    TakeApart(o[0] - 0xF0, o[1] - 0x80);
  }

  lemma {:induction false} TakeApart(high: int, low: int)
    requires 0 <= high && 0 <= low < 64
    ensures (high * 64 + low) / 64 == high && (high * 64 + low) % 64 == low
  {
  }

  /** These octet sequences are exactly the encodings of the characters. */
  lemma {:induction false} CharsAreScalars(c: seq<byte>)
    ensures IsChar(c) <==> exists v: nat :: IsScalar(v) && Encoded(v) == Octets(c)
  {
    CharAsNumbers(c);
    if IsChar(c) {
      CharIsEncoded(Octets(c));
    }
    if v: nat :| IsScalar(v) && Encoded(v) == Octets(c) {
      EncodedIsChar(v);
    }
  }

  /** The length of the character at the front of `s`, 0 if there is none. */
  function FrontChar(s: seq<byte>): (n: nat)
    ensures n <= |s| && n <= 4 && (0 < n ==> IsChar(s[..n]))
  {
    if 1 <= |s| && IsChar(s[..1]) then 1
    else if 2 <= |s| && IsChar(s[..2]) then 2
    else if 3 <= |s| && IsChar(s[..3]) then 3
    else if 4 <= |s| && IsChar(s[..4]) then 4
    else 0
  }

  /** A concatenation of whole characters. */
  predicate WellFormed(s: seq<byte>) {
    s == [] || (0 < FrontChar(s) && WellFormed(s[FrontChar(s)..]))
  }

  /** The predicate's mask test recognises exactly the bytes that are no continuation. */
  lemma {:induction false} MaskTest(b: byte)
    ensures IsValidUTF8Start((), b).0 <==> !IsTail(b)
  {
  }

  lemma {:induction false} CharShape(c: seq<byte>)
    requires IsChar(c)
    ensures 1 <= |c| && !IsTail(c[0])
    ensures forall k :: 1 <= k < |c| ==> IsTail(c[k])
  {
  }

  /** The front character starts with a non-continuation byte and goes on with continuation bytes only. */
  lemma {:induction false} FrontShape(s: seq<byte>)
    requires WellFormed(s) && s != []
    ensures !IsTail(s[0])
    ensures forall k :: 1 <= k < FrontChar(s) ==> IsTail(s[k])
  {
    SliceShape(s, FrontChar(s));
  }

  lemma {:induction false} SliceShape(s: seq<byte>, n: nat)
    requires 0 < n <= |s| && IsChar(s[..n])
    ensures !IsTail(s[0])
    ensures forall k :: 1 <= k < n ==> IsTail(s[k])
  {
    var c := s[..n];
    CharShape(c);
    assert forall k :: 0 <= k < n ==> s[k] == c[k];
  }

  /** A well-formed stream can be cut in front of any byte that is no continuation. */
  lemma {:induction false} CutAtStart(s: seq<byte>, i: nat)
    requires WellFormed(s) && i < |s| && !IsTail(s[i])
    ensures WellFormed(s[i..])
  {
    if i == 0 {
      assert s[0..] == s;
    } else {
      var n := FrontChar(s);
      FrontShape(s);
      CutAtStart(s[n..], i - n);
      assert s[n..][i - n..] == s[i..];
    }
  }

  /** Dropping to a valid start drops exactly the leading continuation bytes. */
  lemma {:induction false} DropsContinuations(s: seq<byte>)
    ensures var r := DropUntil(s, IsValidUTF8Start, ()).0;
            && |r| <= |s| && r == s[|s| - |r|..]
            && (forall k :: 0 <= k < |s| - |r| ==> IsTail(s[k]))
            && (r != [] ==> !IsTail(r[0]))
  {
    if s != [] {
      MaskTest(s[0]);
      if IsTail(s[0]) {
        DropsContinuations(s[1..]);
        var r := DropUntil(s[1..], IsValidUTF8Start, ()).0;
        assert DropUntil(s, IsValidUTF8Start, ()).0 == r;
        forall k | 0 <= k < |s| - |r|
          ensures IsTail(s[k])
        {
          if k > 0 {
            assert s[k] == s[1..][k - 1];
          }
        }
      }
    }
  }

  /** `out` is the longest suffix of `stream` that consists of whole characters and fits into `capacity`. */
  ghost predicate IsLongestWellFormedSuffix(stream: seq<byte>, capacity: nat, out: seq<byte>) {
    && |out| <= capacity && |out| <= |stream| && out == stream[|stream| - |out|..] && WellFormed(out)
    && forall i | 0 <= i <= |stream| :: |stream| - i <= capacity && WellFormed(stream[i..]) ==> |stream| - i <= |out|
  }

  /** Reading a well-formed stream through a tail buffer from a valid start never splits a character. */
  lemma {:induction false} LongestWellFormedSuffix(stream: seq<byte>, capacity: nat)
    requires WellFormed(stream)
    ensures IsLongestWellFormedSuffix(stream, capacity, DropUntil(LastBytes(stream, capacity), IsValidUTF8Start, ()).0)
  {
    var tail := LastBytes(stream, capacity);
    DropsContinuations(tail);
    StartsOfTail(stream, capacity, tail, DropUntil(tail, IsValidUTF8Start, ()).0);
  }

  lemma {:induction false} StartsOfTail(stream: seq<byte>, capacity: nat, tail: seq<byte>, out: seq<byte>)
    requires WellFormed(stream) && tail == LastBytes(stream, capacity)
    requires |out| <= |tail| && out == tail[|tail| - |out|..]
    requires forall k :: 0 <= k < |tail| - |out| ==> IsTail(tail[k])
    requires out == [] || !IsTail(out[0])
    ensures IsLongestWellFormedSuffix(stream, capacity, out)
  {
    SuffixOfSuffix(stream, tail, out);
    SuffixFromStart(stream, out);
    NoLongerSuffix(stream, capacity, tail, out);
  }

  lemma {:induction false} SuffixOfSuffix(stream: seq<byte>, tail: seq<byte>, out: seq<byte>)
    requires |tail| <= |stream| && tail == stream[|stream| - |tail|..]
    requires |out| <= |tail| && out == tail[|tail| - |out|..]
    ensures out == stream[|stream| - |out|..]
  {
  }

  lemma {:induction false} SuffixFromStart(stream: seq<byte>, out: seq<byte>)
    requires WellFormed(stream)
    requires |out| <= |stream| && out == stream[|stream| - |out|..]
    requires out == [] || !IsTail(out[0])
    ensures WellFormed(out)
  {
    if out != [] {
      CutAtStart(stream, |stream| - |out|);
    }
  }

  lemma {:induction false} NoLongerSuffix(stream: seq<byte>, capacity: nat, tail: seq<byte>, out: seq<byte>)
    requires tail == LastBytes(stream, capacity) && |out| <= |tail|
    requires forall k :: 0 <= k < |tail| - |out| ==> IsTail(tail[k])
    ensures forall i | 0 <= i <= |stream| :: |stream| - i <= capacity && WellFormed(stream[i..]) ==> |stream| - i <= |out|
  {
    forall i | 0 <= i < |stream| && |stream| - i <= capacity && WellFormed(stream[i..])
      ensures |stream| - i <= |out|
    {
      FrontShape(stream[i..]);
      assert tail[i - (|stream| - |tail|)] == stream[i];
    }
  }

  /** The log excerpt of a failed VM: any chunking of a well-formed stream, read from a valid start. */
  method ReadExcerpt(capacity: nat, chunks: seq<seq<byte>>) returns (out: seq<byte>)
    requires 0 < capacity && WellFormed(Joined(chunks))
    ensures IsLongestWellFormedSuffix(Joined(chunks), capacity, out)
  {
    var buffer := new TailBuffer(capacity);
    for k := 0 to |chunks|
      invariant fresh(buffer) && fresh(buffer.buf) && buffer.Valid() && buffer.buf.Length == capacity
      invariant buffer.history == Joined(chunks[..k])
    {
      assert chunks[..k + 1][..k] == chunks[..k];
      var _ := buffer.Write(chunks[k]);
    }
    assert chunks[..|chunks|] == chunks;
    var s';
    out, s' := buffer.WriteToSkippingUntil(IsValidUTF8Start, ());
    LongestWellFormedSuffix(Joined(chunks), capacity);
  }

  function Joined(chunks: seq<seq<byte>>): seq<byte> {
    if chunks == [] then [] else Joined(chunks[..|chunks| - 1]) + chunks[|chunks| - 1]
  }
}
