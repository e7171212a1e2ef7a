/** The bounded buffer that keeps the end of a response stream for usage extraction. */
module TailCapture {

  newtype byte = x: int | 0 <= x < 256

  /** The last `n` bytes of `s`, or all of it. */
  function Last(s: seq<byte>, n: nat): (t: seq<byte>)
    ensures |t| == if |s| < n then |s| else n
  {
    if |s| <= n then s else s[|s| - n..]
  }

  function Concat(chunks: seq<seq<byte>>): seq<byte> {
    if chunks == [] then [] else Concat(chunks[..|chunks| - 1]) + chunks[|chunks| - 1]
  }

  /** The last bytes are a suffix, and `Concat` strings the chunks together in order. */
  lemma LastIsSuffix(s: seq<byte>, n: nat)
    ensures |Last(s, n)| <= n && s[|s| - |Last(s, n)|..] == Last(s, n) && (|Last(s, n)| < n ==> Last(s, n) == s)
  {}

  lemma {:induction false} ConcatJoins(a: seq<seq<byte>>, b: seq<seq<byte>>, chunk: seq<byte>)
    ensures Concat(a + b) == Concat(a) + Concat(b) && Concat([chunk]) == chunk
    decreases |b|
  {
    assert [chunk][..0] == [];
    if b == [] {
      assert a + b == a;
    } else {
      var n := |b| - 1;
      ConcatJoins(a, b[..n], chunk);
      assert (a + b)[..|a + b| - 1] == a + b[..n];
    }
  }

  lemma LastOfLast(a: seq<byte>, b: seq<byte>, n: nat)
    ensures Last(Last(a, n) + b, n) == Last(a + b, n)
  {
    if |a| > n {
      var front, tail := a[..|a| - n], a[|a| - n..];
      Rejoined(a, b, |a| - n);
      DropMore(front, tail + b, |b|);
    }
  }

  lemma Rejoined(a: seq<byte>, b: seq<byte>, n: nat)
    requires n <= |a|
    ensures a + b == a[..n] + (a[n..] + b)
  {}

  lemma DropMore(a: seq<byte>, b: seq<byte>, n: nat)
    requires n <= |b|
    ensures (a + b)[|a| + n..] == b[n..]
  {}

  /** A ring read from its oldest byte. */
  function Rotated(ring: seq<byte>, start: nat): seq<byte>
    requires start <= |ring|
  {
    ring[start..] + ring[..start]
  }

  /** Writing into the newer part `q` of a ring `p + q` that starts at `q`. */
  lemma WriteWithin(p: seq<byte>, q: seq<byte>, bytes: seq<byte>)
    requires |bytes| <= |q|
    ensures Rotated(p + bytes + q[|bytes|..], |p| + |bytes|) == (q + p)[|bytes|..] + bytes
  {
    var ring := p + bytes + q[|bytes|..];
    assert ring[|p| + |bytes|..] == q[|bytes|..];
    assert ring[..|p| + |bytes|] == p + bytes;
    assert (q + p)[|bytes|..] == q[|bytes|..] + p;
  }

  /** Writing past the end of the ring, and on from its beginning. */
  lemma WriteAround(p: seq<byte>, q: seq<byte>, bytes: seq<byte>)
    requires |q| <= |bytes| < |p| + |q|
    ensures var wrapped := bytes[|q|..];
            Rotated(wrapped + p[|wrapped|..] + bytes[..|q|], |wrapped|) == (q + p)[|bytes|..] + bytes
  {
    var wrapped := bytes[|q|..];
    var ring := wrapped + p[|wrapped|..] + bytes[..|q|];
    assert ring[|wrapped|..] == p[|wrapped|..] + bytes[..|q|];
    assert ring[..|wrapped|] == wrapped;
    assert (q + p)[|bytes|..] == p[|wrapped|..];
    assert bytes[..|q|] + wrapped == bytes;
  }

  /** The next start of the ring, without division. */
  function Advance(start: nat, n: nat, capacity: nat): nat
    requires start < capacity && n < capacity
  {
    if start + n < capacity then start + n else start + n - capacity
  }

  lemma Multiples(k: int, d: nat)
    ensures (k >= 1 ==> k * d >= d) && (k <= -1 ==> k * d + d <= 0)
  {
    assert k >= 1 ==> (k - 1) * d >= 0;
    assert k <= -1 ==> (k + 1) * d <= 0;
  }

  lemma QuotientOf(x: nat, d: nat, q: nat)
    requires q * d <= x < q * d + d
    ensures x / d == q && x % d == x - q * d
  {
    var p, r := x / d, x % d;
    assert p * d + r == x;
    assert (p - q) * d == x - r - q * d;
    Multiples(p - q, d);
  }

  lemma WrapAround(start: nat, n: nat, capacity: nat)
    requires start < capacity && n < capacity
    ensures (start + n) % capacity == Advance(start, n, capacity)
  {
    QuotientOf(start + n, capacity, if start + n < capacity then 0 else 1);
  }

  lemma RotatedEdges(ring: seq<byte>)
    ensures Rotated(ring, 0) == ring == Rotated(ring, |ring|)
  {
  }

  /** The two copies of a wrapping write. */
  function WriteRing(ring: seq<byte>, start: nat, bytes: seq<byte>): (after: seq<byte>)
    requires start < |ring| && |bytes| < |ring|
    ensures |after| == |ring|
  {
    var first := if |bytes| < |ring| - start then |bytes| else |ring| - start;
    var once := ring[..start] + bytes[..first] + ring[start + first..];
    if |bytes| > first then bytes[first..] + once[|bytes| - first..] else once
  }

  lemma CutJoined(a: seq<byte>, b: seq<byte>, n: nat)
    requires n <= |b|
    ensures (a + b)[..|a|] == a && (a + b)[|a| + n..] == b[n..]
  {}

  lemma DropFirst(a: seq<byte>, b: seq<byte>, n: nat)
    requires n <= |a|
    ensures (a + b)[n..] == a[n..] + b
  {}

  lemma WriteFits(p: seq<byte>, q: seq<byte>, bytes: seq<byte>)
    requires q != [] && |bytes| <= |q| && |bytes| < |p + q|
    ensures WriteRing(p + q, |p|, bytes) == p + bytes + q[|bytes|..]
  {
    CutJoined(p, q, |bytes|);
    assert bytes[..|bytes|] == bytes;
  }

  lemma WriteWraps(p: seq<byte>, q: seq<byte>, bytes: seq<byte>)
    requires q != [] && |q| < |bytes| < |p + q|
    ensures WriteRing(p + q, |p|, bytes) == bytes[|q|..] + p[|bytes| - |q|..] + bytes[..|q|]
  {
    CutJoined(p, q, |q|);
    DropFirst(p, bytes[..|q|], |bytes| - |q|);
    assert q[|q|..] == [] && p + bytes[..|q|] + [] == p + bytes[..|q|];
    var wrapped, rest := bytes[|q|..], p[|bytes| - |q|..];
    assert WriteRing(p + q, |p|, bytes) == wrapped + (rest + bytes[..|q|]);
  }

  lemma WriteRingParts(p: seq<byte>, q: seq<byte>, bytes: seq<byte>)
    requires q != [] && |bytes| < |p + q|
    ensures |bytes| <= |q| ==> WriteRing(p + q, |p|, bytes) == p + bytes + q[|bytes|..]
    ensures |bytes| > |q| ==> WriteRing(p + q, |p|, bytes) == bytes[|q|..] + p[|bytes| - |q|..] + bytes[..|q|]
  {
    hide WriteRing;
    if |bytes| <= |q| { WriteFits(p, q, bytes); } else { WriteWraps(p, q, bytes); }
  }

  /** A wrapping write drops the oldest bytes and appends the new ones. */
  lemma WriteRingRotates(ring: seq<byte>, start: nat, bytes: seq<byte>)
    requires start < |ring| && |bytes| < |ring|
    ensures Rotated(WriteRing(ring, start, bytes), Advance(start, |bytes|, |ring|))
        == Rotated(ring, start)[|bytes|..] + bytes
  {
    var p, q := ring[..start], ring[start..];
    assert ring == p + q && Rotated(ring, start) == q + p;
    hide Rotated, WriteRing;
    WriteRingParts(p, q, bytes);
    if |bytes| > |q| {
      WriteAround(p, q, bytes);
    } else {
      WriteWithin(p, q, bytes);
      RotatedEdges(WriteRing(ring, start, bytes));
    }
  }

  lemma LastOfFull(v: seq<byte>, rest: seq<byte>)
    requires |rest| <= |v|
    ensures Last(v + rest, |v|) == v[|rest|..] + rest
  {
  }

  lemma LastOfLong(v: seq<byte>, bytes: seq<byte>, n: nat)
    requires n <= |bytes|
    ensures Last(v + bytes, n) == bytes[|bytes| - n..]
  {
    if |v + bytes| > n {
      assert (v + bytes)[|v| + (|bytes| - n)..] == bytes[|bytes| - n..];
    } else {
      assert v + bytes == bytes && bytes[0..] == bytes;
    }
  }

  lemma FillUp(v: seq<byte>, bytes: seq<byte>, n: nat)
    requires n <= |bytes|
    ensures v + bytes == v + bytes[..n] + bytes[n..]
  {}

  class Capture {
    const capacity: nat
    var buffer: seq<byte>
    var start: nat

    ghost predicate Valid()
      reads this
    {
      && |buffer| <= capacity
      && (start == 0 || start < capacity)
      && (|buffer| < capacity ==> start == 0)
    }

    /** The captured bytes, oldest first. */
    function ToVec(): seq<byte>
      reads this
      requires Valid()
    {
      if |buffer| < capacity || start == 0 then buffer else Rotated(buffer, start)
    }

    constructor (capacity: nat)
      ensures Valid() && this.capacity == capacity && ToVec() == []
    {
      this.capacity := capacity;
      buffer := [];
      start := 0;
    }

    /** Overwrites the oldest bytes of a full ring with fewer bytes than it holds. */
    method Overwrite(bytes: seq<byte>)
      requires Valid() && |buffer| == capacity && |bytes| < capacity
      modifies this
      ensures Valid() && |buffer| == capacity
      ensures ToVec() == old(ToVec())[|bytes|..] + bytes
    {
      hide Rotated;
      ghost var ring, from := buffer, start;
      WriteRingRotates(ring, from, bytes);
      RotatedEdges(ring);
      var first := if |bytes| < capacity - start then |bytes| else capacity - start;
      buffer := buffer[..start] + bytes[..first] + buffer[start + first..];
      var remaining := |bytes| - first;
      if remaining > 0 {
        buffer := bytes[first..] + buffer[remaining..];
      }
      WrapAround(start, |bytes|, capacity);
      start := (start + |bytes|) % capacity;
      RotatedEdges(buffer);
    }

    /** After any push the buffer holds the last `capacity` bytes of what it held plus the new ones. */
    method Push(bytes: seq<byte>)
      requires Valid()
      modifies this
      ensures Valid()
      ensures ToVec() == Last(old(ToVec()) + bytes, capacity)
    {
      if capacity == 0 {
        return;
      }
      ghost var was := ToVec();
      if |bytes| >= capacity {
        buffer := bytes[|bytes| - capacity..];
        start := 0;
        LastOfLong(was, bytes, capacity);
        return;
      }
      var rest := bytes;
      if |buffer| < capacity {
        var append := if |bytes| < capacity - |buffer| then |bytes| else capacity - |buffer|;
        FillUp(buffer, bytes, append);
        buffer := buffer + bytes[..append];
        rest := bytes[append..];
        if rest == [] {
          return;
        }
      }
      ghost var full := ToVec();
      assert was + bytes == full + rest;
      hide Last, Rotated;
      LastOfFull(full, rest);
      Overwrite(rest);
    }
  }

  /** Pushing the chunks of a stream one by one. */
  function PushAll(chunks: seq<seq<byte>>, capacity: nat): seq<byte> {
    if chunks == [] then [] else Last(PushAll(chunks[..|chunks| - 1], capacity) + chunks[|chunks| - 1], capacity)
  }

  /** However a stream is cut into chunks, the capture ends up with its last `capacity` bytes. */
  lemma {:induction false} CaptureIsTail(chunks: seq<seq<byte>>, capacity: nat)
    ensures PushAll(chunks, capacity) == Last(Concat(chunks), capacity)
  {
    if chunks != [] {
      var n := |chunks| - 1;
      CaptureIsTail(chunks[..n], capacity);
      LastOfLast(Concat(chunks[..n]), chunks[n], capacity);
    }
  }

  /** The same, for the buffer itself. */
  method CaptureStream(chunks: seq<seq<byte>>, capacity: nat) returns (tail: seq<byte>)
    ensures tail == Last(Concat(chunks), capacity)
  {
    var capture := new Capture(capacity);
    for i := 0 to |chunks|
      invariant fresh(capture) && capture.Valid() && capture.capacity == capacity
      invariant capture.ToVec() == Last(Concat(chunks[..i]), capacity)
    {
      capture.Push(chunks[i]);
      assert chunks[..i + 1][..i] == chunks[..i];
      LastOfLast(Concat(chunks[..i]), chunks[i], capacity);
    }
    assert chunks[..|chunks|] == chunks;
    tail := capture.ToVec();
  }
}
