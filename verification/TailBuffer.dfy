/**
 The circular tail buffer of the crosvm runtime and the predicates it is read with.

 The buffer is specified by the unbounded history of bytes written since the last
 reset: however the writes were chunked, reading yields the end of that history.
 */
module TailBuffers {

  type byte = bv8

  const NEWLINE: byte := 10

  /** The last `n` bytes of `s`, or all of `s` when it is shorter. */
  function LastBytes(s: seq<byte>, n: nat): (r: seq<byte>)
    ensures |r| <= n && |r| <= |s| && r == s[|s| - |r|..]
    ensures r == s || |r| == n
  {
    if |s| <= n then s else s[|s| - n..]
  }

  /**
   A Go predicate closure is a step over the state it captures: given the captured
   state and a byte it answers and leaves a new state behind.
   */
  type Predicate<!S> = (S, byte) -> (bool, S)

  function AlwaysTrue(s: (), b: byte): (bool, ()) {
    (true, s)
  }

  /** A UTF-8 byte whose top two bits are '10' continues a character; any other one starts it. */
  function IsValidUTF8Start(s: (), b: byte): (bool, ()) {
    ((b & 0xC0) != 0x80, s)
  }

  /** The captured state says whether a newline was already seen. */
  function IsLineStart(foundNewline: bool, b: byte): (bool, bool) {
    if foundNewline then (true, true) else (false, b == NEWLINE)
  }

  /** One pass over `data` that drops bytes until `p` first answers true, threading its state. */
  function DropUntil<S>(data: seq<byte>, p: Predicate<S>, s: S): (r: (seq<byte>, S))
    ensures |r.0| <= |data| && r.0 == data[|data| - |r.0|..]
  {
    if data == [] then
      ([], s)
    else
      var (hit, s') := p(s, data[0]);
      if hit then (data, s') else DropUntil(data[1..], p, s')
  }

  /** Dropping over a concatenation: the second part is scanned only if the first was dropped whole. */
  lemma {:induction false} DropUntilConcat<S>(a: seq<byte>, b: seq<byte>, p: Predicate<S>, s: S)
    ensures var (ra, sa) := DropUntil(a, p, s);
            DropUntil(a + b, p, s) == if ra == [] then DropUntil(b, p, sa) else (ra + b, sa)
  {
    if a == [] {
      assert a + b == b;
    } else {
      assert (a + b)[0] == a[0] && (a + b)[1..] == a[1..] + b;
      var (hit, s') := p(s, a[0]);
      if !hit {
        DropUntilConcat(a[1..], b, p, s');
      }
    }
  }

  lemma {:induction false} DropUntilAlwaysTrue(data: seq<byte>)
    ensures DropUntil(data, AlwaysTrue, ()).0 == data
  {
  }

  /** Reading from a line start drops everything up to and including the first newline. */
  lemma {:induction false} LineStartDrops(data: seq<byte>, k: nat)
    requires k < |data| && data[k] == 10 && forall i :: 0 <= i < k ==> data[i] != 10
    ensures DropUntil(data, IsLineStart, false).0 == data[k + 1..]
  {
    if k == 0 {
      var rest := data[1..];
      if rest != [] {
        assert DropUntil(rest, IsLineStart, true).0 == rest;
      }
    } else {
      LineStartDrops(data[1..], k - 1);
      assert data[1..][k..] == data[k + 1..];
    }
  }

  lemma {:induction false} LineStartNeedsNewline(data: seq<byte>)
    requires NEWLINE !in data
    ensures DropUntil(data, IsLineStart, false).0 == []
  {
    if data != [] {
      LineStartNeedsNewline(data[1..]);
    }
  }

  /** Every byte string either has no newline or a first one. */
  lemma {:induction false} FirstNewline(data: seq<byte>) returns (k: nat)
    ensures k <= |data| && NEWLINE !in data[..k]
    ensures k < |data| ==> data[k] == NEWLINE
  {
    k := 0;
    while k < |data| && data[k] != NEWLINE
      invariant k <= |data| && NEWLINE !in data[..k]
    {
      k := k + 1;
    }
  }

  /** Adding `j <= m` to `a` moves its residue by `j`, wrapping at most once. */
  lemma {:induction false} ResidueAfter(a: nat, j: nat, m: nat)
    requires 0 < m && j < m
    ensures (a + j) % m == if a % m + j < m then a % m + j else a % m + j - m
  {
    var q, r := a / m, a % m;
    assert a == q * m + r;
    if r + j < m {
      DivModUnique(a + j, q, r + j, m);
    } else {
      assert a + j == (q + 1) * m + (r + j - m);
      DivModUnique(a + j, q + 1, r + j - m, m);
    }
  }

  lemma {:induction false} DivModUnique(a: nat, q: nat, r: nat, m: nat)
    requires r < m && a == q * m + r
    ensures a % m == r
  {
    var q', r' := a / m, a % m;
    if q' < q {
      MultiplesApart(q', q, m);
    } else if q < q' {
      MultiplesApart(q, q', m);
    }
  }

  lemma {:induction false} MultiplesApart(a: nat, b: nat, m: nat)
    requires a < b
    ensures a * m + m <= b * m
  {
    assert b * m == a * m + (b - a) * m;
    assert (b - a) * m == (b - a - 1) * m + m;
  }

  /** What the writer received from one call, together with the predicate's final state. */
  method WriteToDropUntil<S>(data: seq<byte>, p: Predicate<S>, s: S) returns (out: seq<byte>, s': S)
    ensures (out, s') == DropUntil(data, p, s)
  {
    s' := s;
    var startIdx := 0;
    while startIdx < |data|
      invariant 0 <= startIdx <= |data|
      invariant DropUntil(data, p, s) == DropUntil(data[startIdx..], p, s')
    {
      var (hit, next) := p(s', data[startIdx]);
      s' := next;
      if hit {
        break;
      }
      assert data[startIdx..][1..] == data[startIdx + 1..];
      startIdx := startIdx + 1;
    }
    out := data[startIdx..];
  }

  class TailBuffer {
    const buf: array<byte>
    var pos: nat
    ghost var history: seq<byte>

    ghost predicate Valid()
      reads this, buf
    {
      0 < buf.Length && pos == |history| && Holds(buf[..], history)
    }

    constructor (capacity: nat)
      requires 0 < capacity
      ensures Valid() && fresh(buf) && buf.Length == capacity && history == []
    {
      buf := new byte[capacity];
      pos := 0;
      history := [];
    }

    method Reset()
      requires Valid()
      modifies this
      ensures Valid() && history == []
    {
      pos := 0;
      history := [];
    }

    /** Go's built-in copy into `buf[lo..hi]`. */
    method Copy(lo: nat, hi: nat, src: seq<byte>)
      requires lo <= hi <= buf.Length && |src| == hi - lo
      modifies buf
      ensures forall i :: lo <= i < hi ==> buf[i] == src[i - lo]
      ensures forall i :: 0 <= i < buf.Length && !(lo <= i < hi) ==> buf[i] == old(buf[i])
    {
      forall i | lo <= i < hi {
        buf[i] := src[i - lo];
      }
    }

    /** Copies `chunk` to index `start` and on, going on at the front where the array ends. */
    method CopyAround(start: nat, end: nat, chunk: seq<byte>)
      requires start < buf.Length && end < buf.Length && 0 < |chunk| <= buf.Length
      requires if end > start then end - start == |chunk| else start + |chunk| == buf.Length + end
      modifies buf
      ensures Placed(old(buf[..]), buf[..], start, chunk)
    {
      if end > start {
        Copy(start, end, chunk);
      } else {
        var split := buf.Length - start;
        Copy(start, buf.Length, chunk[..split]);
        Copy(0, end, chunk[split..]);
      }
    }

    method Write(data: seq<byte>) returns (n: nat)
      requires Valid()
      modifies this, buf
      ensures Valid() && history == old(history) + data && n == |data|
    {
      n := |data|;
      if n == 0 {
        assert history + data == history;
        return;
      }
      var capacity := buf.Length;
      var newPos := pos + n;
      var tailData := if n > capacity then data[n - capacity..] else data;
      var start := (newPos - |tailData|) % capacity;
      var end := newPos % capacity;
      WrapCases(newPos - |tailData|, |tailData|, capacity);
      CopyAround(start, end, tailData);
      TailPlaced(history, data, old(buf[..]), buf[..], start);
      pos := newPos;
      history := history + data;
    }

    method WriteTo() returns (out: seq<byte>)
      requires Valid()
      ensures out == LastBytes(history, buf.Length)
    {
      var s;
      out, s := WriteToSkippingUntil(AlwaysTrue, ());
      DropUntilAlwaysTrue(LastBytes(history, buf.Length));
    }

    method WriteToSkippingUntil<S>(p: Predicate<S>, s: S) returns (out: seq<byte>, s': S)
      requires Valid()
      ensures (out, s') == DropUntil(LastBytes(history, buf.Length), p, s)
    {
      var capacity := buf.Length;
      ghost var tail := LastBytes(history, capacity);
      if pos < capacity {
        TailUnwrapped(buf[..], history);
        assert buf[..pos] == buf[..][..pos] == tail;
        out, s' := WriteToDropUntil(buf[..pos], p, s);
        return;
      }
      var end := pos % capacity;
      TailWrapped(buf[..], history);
      if end == 0 {
        assert buf[..] == tail;
        out, s' := WriteToDropUntil(buf[..], p, s);
        return;
      }
      var older, newer := buf[end..capacity], buf[..end];
      assert older + newer == tail;
      DropUntilConcat(older, newer, p, s);
      out, s' := WriteToDropUntil(older, p, s);
      // nothing written means that the predicate must go on with the other part
      if |out| == 0 {
        out, s' := WriteToDropUntil(newer, p, s');
      } else {
        out := out + newer;
      }
    }
  }

  /** Before the first wrap the history starts at the array's front. */
  lemma {:induction false} TailUnwrapped(buf: seq<byte>, history: seq<byte>)
    requires 0 < |buf| && Holds(buf, history) && |history| < |buf|
    ensures buf[..|history|] == LastBytes(history, |buf|)
  {
    forall k | 0 <= k < |history|
      ensures buf[k] == history[k]
    {
      DivModUnique(k, 0, k, |buf|);
      assert buf[k % |buf|] == history[k];
    }
  }

  /** From then on, the array read from the write position around to it again is the end of the history. */
  lemma {:induction false} TailWrapped(buf: seq<byte>, history: seq<byte>)
    requires 0 < |buf| <= |history| && Holds(buf, history)
    ensures buf[|history| % |buf|..] + buf[..|history| % |buf|] == LastBytes(history, |buf|)
  {
    var read := buf[|history| % |buf|..] + buf[..|history| % |buf|];
    forall j | 0 <= j < |buf|
      ensures read[j] == history[|history| - |buf| + j]
    {
      TailByte(buf, history, j);
    }
  }

  lemma {:induction false} TailByte(buf: seq<byte>, history: seq<byte>, j: nat)
    requires 0 < |buf| <= |history| && Holds(buf, history) && j < |buf|
    ensures var end := |history| % |buf|;
            history[|history| - |buf| + j] == buf[if end + j < |buf| then end + j else end + j - |buf|]
  {
    var k := |history| - |buf| + j;
    ResidueAfter(|history| - |buf|, j, |buf|);
    ResidueShift(|history|, |buf|);
    assert buf[k % |buf|] == history[k];
  }

  /** How far index `i` is after index `start`, going around the end of the array. */
  function Offset(start: nat, i: nat, capacity: nat): nat
    requires start < capacity && i < capacity
  {
    if i >= start then i - start else i - start + capacity
  }

  /** `buf` holds, at index `k % |buf|`, every byte `k` among the last `|buf|` of `history`. */
  ghost predicate Holds(buf: seq<byte>, history: seq<byte>)
    requires 0 < |buf|
  {
    forall k {:trigger history[k]} :: 0 <= k < |history| && |history| - |buf| <= k ==> buf[k % |buf|] == history[k]
  }

  /** `now` is `was` with `chunk` written from index `start` on, around the end of the array. */
  ghost predicate Placed(was: seq<byte>, now: seq<byte>, start: nat, chunk: seq<byte>)
    requires |was| == |now| && start < |was|
  {
    forall i :: 0 <= i < |was| ==>
      now[i] == if Offset(start, i, |was|) < |chunk| then chunk[Offset(start, i, |was|)] else was[i]
  }

  /** Placing the newest bytes keeps the older ones among the last `|was|` where they are. */
  lemma {:induction false} TailPlaced(history: seq<byte>, data: seq<byte>, was: seq<byte>, now: seq<byte>, start: nat)
    requires 0 < |was| == |now| && Holds(was, history)
    requires start == (|history| + |data| - |LastBytes(data, |was|)|) % |was|
    requires Placed(was, now, start, LastBytes(data, |was|))
    ensures Holds(now, history + data)
  {
    var full, chunk := history + data, LastBytes(data, |was|);
    var from := |full| - |chunk|;
    forall k | 0 <= k < |full| && |full| - |was| <= k
      ensures now[k % |was|] == full[k]
    {
      OffsetOf(from, |was|, k);
      PlacedByte(history, data, was, now, start, k, k % |was|);
    }
  }

  lemma {:induction false} PlacedByte(history: seq<byte>, data: seq<byte>, was: seq<byte>, now: seq<byte>, start: nat, k: nat, place: nat)
    requires |was| == |now| && start < |was| && place < |was| && k < |history| + |data|
    requires Placed(was, now, start, LastBytes(data, |was|))
    requires var from := |history| + |data| - |LastBytes(data, |was|)|;
             Offset(start, place, |was|) == if k >= from then k - from else k - from + |was|
    requires k < |history| && |history| - |was| <= k ==> was[place] == history[k]
    requires |history| + |data| - |was| <= k
    ensures now[place] == (history + data)[k]
  {
  }

  lemma {:induction false} ResidueShift(a: nat, m: nat)
    requires 0 < m <= a
    ensures (a - m) % m == a % m
  {
    var q, r := (a - m) / m, (a - m) % m;
    assert a - m == q * m + r;
    assert a == (q + 1) * m + r;
    DivModUnique(a, q + 1, r, m);
  }

  /** A chunk of `n <= capacity` bytes either fits before the end of the array or wraps exactly once. */
  lemma {:induction false} WrapCases(from: nat, n: nat, capacity: nat)
    requires 0 < n <= capacity
    ensures var start, end := from % capacity, (from + n) % capacity;
            if end > start then end - start == n else start + n == capacity + end
  {
    if n == capacity {
      ResidueShift(from + n, capacity);
    } else {
      ResidueAfter(from, n, capacity);
    }
  }

  lemma {:induction false} OffsetOf(from: nat, capacity: nat, k: nat)
    requires 0 < capacity && from - capacity <= k < from + capacity
    ensures Offset(from % capacity, k % capacity, capacity) == if k >= from then k - from else k - from + capacity
  {
    if k >= from {
      ResidueAfter(from, k - from, capacity);
    } else if from - capacity < k {
      ResidueAfter(k, from - k, capacity);
    } else {
      ResidueShift(from, capacity);
    }
  }

  /** One call that changes the buffer. */
  datatype Op = Write(data: seq<byte>) | Reset

  /** What was written since the last reset, however it was chunked. */
  function SinceReset(ops: seq<Op>): seq<byte> {
    if ops == [] then
      []
    else
      match ops[|ops| - 1]
      case Reset => []
      case Write(data) => SinceReset(ops[..|ops| - 1]) + data
  }

  /** Any sequence of calls on a new buffer, then one read: it sees the end of the unbounded history. */
  method Replay<S>(capacity: nat, ops: seq<Op>, p: Predicate<S>, s: S) returns (out: seq<byte>, skipped: seq<byte>)
    requires 0 < capacity
    ensures out == LastBytes(SinceReset(ops), capacity)
    ensures skipped == DropUntil(LastBytes(SinceReset(ops), capacity), p, s).0
  {
    var buffer := new TailBuffer(capacity);
    for i := 0 to |ops|
      invariant fresh(buffer) && fresh(buffer.buf) && buffer.Valid() && buffer.buf.Length == capacity
      invariant buffer.history == SinceReset(ops[..i])
    {
      assert ops[..i + 1][..i] == ops[..i];
      match ops[i]
      case Write(data) =>
        var _ := buffer.Write(data);
      case Reset =>
        buffer.Reset();
    }
    assert ops[..|ops|] == ops;
    out := buffer.WriteTo();
    var s';
    skipped, s' := buffer.WriteToSkippingUntil(p, s);
  }

  /** Chunk boundaries do not matter: resetless writes leave the concatenation of what they wrote. */
  lemma {:induction false} ChunkingIsInvisible(before: seq<Op>, a: seq<byte>, b: seq<byte>)
    ensures SinceReset(before + [Write(a), Write(b)]) == SinceReset(before + [Write(a + b)])
  {
    var two, one := before + [Write(a), Write(b)], before + [Write(a + b)];
    assert two[..|two| - 1] == before + [Write(a)];
    assert (before + [Write(a)])[..|before|] == before;
    assert one[..|before|] == before;
    assert SinceReset(before) + a + b == SinceReset(before) + (a + b);
  }
}
