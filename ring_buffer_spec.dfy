/**
 * The lookback cache of the relay (class RingBuffer in server/src/RingBuffer.ts) described as
 * values: a state is the backing bytes together with the read cursor `position_` and the
 * stored-length counter `remaining_`, and every operation is a function from state to state.
 * The class in ring_buffer.dfy is proved to do exactly what these functions say.
 *
 * The functions follow the code as written, not an idealised ring:
 *  - on overflow `compact` drops exactly as many bytes as the incoming chunk holds;
 *  - `remaining_` can become negative, and a copy to or from a negative offset is the
 *    RangeError that Node's Buffer.copy raises;
 *  - `get` adds the read length to `remaining_` instead of subtracting it.
 */
module RingBufferSpec {
  import opened Wrappers
  import opened JsBuiltins

  /** The fields of a RingBuffer. The capacity `size_` is the number of backing bytes. */
  datatype RingState = RingState(bytes: seq<bv8>, position: int, remaining: int)

  /** What `put` reports: true, false, or an exception out of Buffer.copy. */
  datatype PutResult = Stored | NoRoom | RangeError

  /** The state after `put`, and what it reported. */
  datatype PutStep = PutStep(state: RingState, result: PutResult)

  /** The state after a read, and the bytes read (None where the source returns false or null). */
  datatype ReadStep = ReadStep(state: RingState, data: Option<seq<bv8>>)

  /** The state after `readUInt{16,32,64}BE`, and the number read (None when Node's bounds check throws). */
  datatype NumberStep = NumberStep(state: RingState, value: Option<nat>)

  /**
   * The widths for which the source generates a `readUInt<bits>BE` method. Node's Buffer has
   * `readUInt16BE` and `readUInt32BE` but no `readUInt64BE`, so the 64-bit method always throws.
   */
  datatype Width = U16 | U32 | U64

  /** Every operation keeps the cursor at or above zero. */
  predicate Valid(s: RingState) {
    s.position >= 0
  }

  /** The stored window [position, position + remaining) lies inside the backing bytes. */
  predicate Coherent(s: RingState) {
    0 <= s.position && 0 <= s.remaining && s.position + s.remaining <= |s.bytes|
  }

  /** Coherent, with the free byte that the `>=` test of `put` always leaves after a stored chunk. */
  predicate Settled(s: RingState) {
    Coherent(s) && s.position + s.remaining < |s.bytes|
  }

  /** The bytes held, oldest first. */
  function Contents(s: RingState): seq<bv8>
    requires Coherent(s)
  {
    s.bytes[s.position..s.position + s.remaining]
  }

  /** A chunk of `n` bytes goes in after the stored window without compaction. */
  predicate Fits(s: RingState, n: nat) {
    s.position + s.remaining + n < |s.bytes|
  }

  /** `new RingBuffer(size)`: zero-filled backing bytes (Buffer.alloc), cursor and count at zero. */
  function Empty(size: nat): (s: RingState)
    ensures |s.bytes| == size && s.position == 0 && s.remaining == 0
    ensures Coherent(s) && Contents(s) == []
    ensures size > 0 ==> Settled(s)
  {
    RingState(seq(size, _ => 0), 0, 0)
  }

  /**
   * `n` bytes copied from offset `from` into a fresh zero-filled buffer of length `n`:
   * the copy stops at the end of the backing bytes and the rest stays zero.
   */
  function Window(bytes: seq<bv8>, from: nat, n: nat): (w: seq<bv8>)
    ensures |w| == n
    ensures from + n <= |bytes| ==> w == bytes[from..from + n]
  {
    seq(n, i requires 0 <= i < n => if from + i < |bytes| then bytes[from + i] else 0)
  }

  /** `peek(out, n)`: fails exactly when fewer than `n` bytes are counted; never changes the state. */
  function Peek(s: RingState, n: nat): (r: Option<seq<bv8>>)
    requires Valid(s)
    ensures r.None? <==> n > s.remaining
    ensures r.Some? ==> |r.value| == n
    ensures r.Some? && Coherent(s) ==> r.value == Contents(s)[..n]
  {
    if n > s.remaining then None else Some(Window(s.bytes, s.position, n))
  }

  /**
   * `compact(n)`: copies [position + n, position + remaining) to offset 0, then lowers `remaining_`
   * by `n` and sets `position_` to 0. None is the RangeError Buffer.copy raises for a negative end.
   */
  function Compact(s: RingState, n: nat): (r: Option<RingState>)
    requires Valid(s)
    ensures r.None? <==> s.position + s.remaining < 0
    ensures r.Some? ==> Valid(r.value) && |r.value.bytes| == |s.bytes|
    ensures r.Some? ==> r.value.position == 0 && r.value.remaining == s.remaining - n
    ensures Coherent(s) && n <= s.remaining ==>
              r.Some? && Coherent(r.value) && Contents(r.value) == Contents(s)[n..]
    ensures Coherent(s) && n > s.remaining ==> r.Some? && r.value.bytes == s.bytes
  {
    var end := s.position + s.remaining;
    if end < 0 then None
    else
      var start, stop := s.position + n, Min(end, |s.bytes|);
      var moved := if start < stop then s.bytes[start..stop] else [];
      Some(RingState(moved + s.bytes[|moved|..], 0, s.remaining - n))
  }

  /** Lines 55-60 of `put`: the second space test, then the copy of the chunk after the stored window. */
  function Store(s: RingState, chunk: seq<bv8>): (r: PutStep)
    requires Valid(s)
    // no room while the chunk would reach the last byte; a negative end throws; otherwise it is stored
    ensures r.result == NoRoom <==> s.position + s.remaining + |chunk| >= |s.bytes|
    ensures r.result == RangeError <==> s.position + s.remaining + |chunk| < |s.bytes| && s.position + s.remaining < 0
    ensures r.result != Stored ==> r.state == s
    ensures r.result == Stored ==>
              && |r.state.bytes| == |s.bytes| && r.state.position == s.position
              && r.state.remaining == s.remaining + |chunk|
              && r.state.position + r.state.remaining < |s.bytes|
  {
    var at := s.position + s.remaining;
    if at + |chunk| >= |s.bytes| then PutStep(s, NoRoom)
    else if at < 0 then PutStep(s, RangeError)
    else PutStep(RingState(s.bytes[..at] + chunk + s.bytes[at + |chunk|..], s.position, s.remaining + |chunk|), Stored)
  }

  /** `put(chunk)`: compacts when the chunk does not fit, then stores it if it fits now. */
  function Put(s: RingState, chunk: seq<bv8>): (r: PutStep)
    requires Valid(s)
    ensures Valid(r.state) && |r.state.bytes| == |s.bytes|
    // once position + remaining is negative, every put throws and changes nothing
    ensures s.position + s.remaining < 0 ==> r == PutStep(s, RangeError)
  {
    var n := |chunk|;
    if s.position + s.remaining + n >= |s.bytes| then
      match Compact(s, n)
      case None => PutStep(s, RangeError)
      case Some(c) => Store(c, chunk)
    else Store(s, chunk)
  }

  /** A stored chunk always leaves at least one byte free. */
  lemma PutLeavesFreeByte(s: RingState, chunk: seq<bv8>)
    requires Valid(s) && Put(s, chunk).result == Stored
    ensures Put(s, chunk).state.position + Put(s, chunk).state.remaining < |s.bytes|
  {
    if !Fits(s, |chunk|) {
      var c := Compact(s, |chunk|).value;
      assert Put(s, chunk) == Store(c, chunk);
    }
  }

  /** Without compaction the chunk is written at position + remaining, and nothing before it moves. */
  lemma PutWithoutCompaction(s: RingState, chunk: seq<bv8>)
    requires Valid(s) && Fits(s, |chunk|) && 0 <= s.position + s.remaining
    ensures var r, at := Put(s, chunk), s.position + s.remaining;
            && r.result == Stored
            && r.state.position == s.position
            && r.state.remaining == s.remaining + |chunk|
            && r.state.bytes[..at] == s.bytes[..at]
            && r.state.bytes[at..at + |chunk|] == chunk
  {
    var at := s.position + s.remaining;
    var t := Put(s, chunk).state;
    assert t.bytes == s.bytes[..at] + chunk + s.bytes[at + |chunk|..];
    assert t.bytes[..at] == s.bytes[..at];
    assert t.bytes[at..at + |chunk|] == chunk;
  }

  /** Storing a chunk that fits appends it to what is held. */
  lemma StoreAppends(s: RingState, chunk: seq<bv8>)
    requires Coherent(s) && Fits(s, |chunk|)
    ensures var r := Store(s, chunk);
            r.result == Stored && Settled(r.state) && Contents(r.state) == Contents(s) + chunk
  {
    var at := s.position + s.remaining;
    var t := Store(s, chunk).state;
    assert t.bytes == s.bytes[..at] + chunk + s.bytes[at + |chunk|..];
    assert Contents(t) == t.bytes[s.position..at] + t.bytes[at..at + |chunk|];
  }

  /** From a settled state the chunk is appended, after evicting exactly |chunk| bytes when it does not fit. */
  lemma PutAppends(s: RingState, chunk: seq<bv8>)
    requires Settled(s) && (Fits(s, |chunk|) || |chunk| <= s.remaining)
    ensures var r := Put(s, chunk);
            && r.result == Stored
            && Settled(r.state)
            && Contents(r.state) == Contents(s)[if Fits(s, |chunk|) then 0 else |chunk|..] + chunk
  {
    var n := |chunk|;
    if Fits(s, n) {
      StoreAppends(s, chunk);
    } else {
      var c := Compact(s, n).value;
      assert Put(s, chunk) == Store(c, chunk);
      StoreAppends(c, chunk);
    }
  }

  /** From a settled state, an overflowing chunk longer than the stored count throws after compacting. */
  lemma PutOverflowThrows(s: RingState, chunk: seq<bv8>)
    requires Settled(s) && !Fits(s, |chunk|) && |chunk| > s.remaining
    ensures var r := Put(s, chunk);
            && r.result == RangeError
            && r.state.position == 0
            && r.state.remaining == s.remaining - |chunk| < 0
  {
    var c := Compact(s, |chunk|).value;
    assert Put(s, chunk) == Store(c, chunk);
  }

  /** `false` is reported only after a compaction that has already changed the state. */
  lemma PutNoRoomAfterCompacting(s: RingState, chunk: seq<bv8>)
    requires Valid(s) && Put(s, chunk).result == NoRoom
    ensures var r := Put(s, chunk);
            !Fits(s, |chunk|) && r.state.position == 0 && r.state.remaining == s.remaining - |chunk|
  {
    if !Fits(s, |chunk|) {
      var c := Compact(s, |chunk|).value;
      assert Put(s, chunk) == Store(c, chunk);
    }
  }

  /** `rewind(n)`: None when `n` exceeds the cursor (the source returns false and changes nothing). */
  function Rewind(s: RingState, n: nat): (r: Option<RingState>)
    requires Valid(s)
    ensures r.None? <==> n > s.position
    ensures r.Some? ==> && Valid(r.value) && r.value.bytes == s.bytes
                        && r.value.position == s.position - n
                        && r.value.remaining == s.remaining + n
                        && r.value.position + r.value.remaining == s.position + s.remaining
  {
    if n > s.position then None else Some(RingState(s.bytes, s.position - n, s.remaining + n))
  }

  /** `get(out, n)`: a successful peek, after which BOTH the cursor and `remaining_` grow by `n`. */
  function Get(s: RingState, n: nat): (r: ReadStep)
    requires Valid(s)
    ensures Valid(r.state) && r.data == Peek(s, n) && r.state.bytes == s.bytes
    ensures r.data.None? ==> r.state == s
    ensures r.data.Some? ==> r.state.position == s.position + n && r.state.remaining == s.remaining + n
  {
    match Peek(s, n)
    case None => ReadStep(s, None)
    case Some(d) => ReadStep(RingState(s.bytes, s.position + n, s.remaining + n), Some(d))
  }

  /** `getString(n)`: a consuming read; the bytes are decoded by the caller's encoding, which is not modelled. */
  function GetString(s: RingState, n: nat): (r: ReadStep)
    requires Valid(s)
    ensures Valid(r.state) && r.data == Peek(s, n) && r.state.bytes == s.bytes
    ensures r.data.None? ==> r.state == s
    ensures r.data.Some? ==> r.state.position == s.position + n && r.state.remaining == s.remaining - n
    ensures Coherent(s) && r.data.Some? ==>
              Coherent(r.state) && r.data.value + Contents(r.state) == Contents(s)
  {
    match Peek(s, n)
    case None => ReadStep(s, None)
    case Some(d) => ReadStep(RingState(s.bytes, s.position + n, s.remaining - n), Some(d))
  }

  function ByteCount(w: Width): nat {
    match w
    case U16 => 2
    case U32 => 4
    case U64 => 8
  }

  function Pow256(k: nat): (p: nat)
    ensures p >= 1
  {
    if k == 0 then 1 else 256 * Pow256(k - 1)
  }

  /** The unsigned number whose big-endian encoding is `bs`. */
  function BigEndian(bs: seq<bv8>): (v: nat)
    ensures v < Pow256(|bs|)
  {
    if bs == [] then 0
    else
      var init := BigEndian(bs[..|bs| - 1]);
      assert init * 256 + 255 < Pow256(|bs|) by {
        assert init + 1 <= Pow256(|bs| - 1);
        assert (init + 1) * 256 <= Pow256(|bs| - 1) * 256;
      }
      init * 256 + bs[|bs| - 1] as nat
  }

  /**
   * `readUInt<bits>BE()`: reads at the cursor without looking at `remaining_`, then moves the cursor
   * forward and lowers `remaining_` by the width. A read past the end, or any 64-bit read (a call
   * of the missing `readUInt64BE`), throws and changes nothing.
   */
  function ReadUIntBE(s: RingState, w: Width): (r: NumberStep)
    requires Valid(s)
    ensures Valid(r.state) && r.state.bytes == s.bytes
    ensures r.value.None? <==> w == U64 || s.position + ByteCount(w) > |s.bytes|
    ensures r.value.None? ==> r.state == s
    ensures r.value.Some? ==>
              && r.value.value < Pow256(ByteCount(w))
              && r.state.position == s.position + ByteCount(w)
              && r.state.remaining == s.remaining - ByteCount(w)
  {
    var k := ByteCount(w);
    if w == U64 || s.position + k > |s.bytes| then NumberStep(s, None)
    else NumberStep(RingState(s.bytes, s.position + k, s.remaining - k), Some(BigEndian(s.bytes[s.position..s.position + k])))
  }

  // ---------------------------------------------------------------- sequences of puts

  /** The state after putting each chunk in turn. */
  function PutAll(s: RingState, chunks: seq<seq<bv8>>): (t: RingState)
    requires Valid(s)
    ensures Valid(t) && |t.bytes| == |s.bytes|
    decreases |chunks|
  {
    if chunks == [] then s else PutAll(Put(s, chunks[0]).state, chunks[1..])
  }

  function Concat(chunks: seq<seq<bv8>>): seq<bv8> {
    if chunks == [] then [] else chunks[0] + Concat(chunks[1..])
  }

  function TotalLength(chunks: seq<seq<bv8>>): nat {
    if chunks == [] then 0 else |chunks[0]| + TotalLength(chunks[1..])
  }

  /** A chunk that fits goes in after what was held, and the cursor stays. */
  lemma PutFitting(s: RingState, chunk: seq<bv8>)
    requires Coherent(s) && Fits(s, |chunk|)
    ensures var t := Put(s, chunk).state;
            Coherent(t) && t.position == s.position && t.remaining == s.remaining + |chunk|
            && Contents(t) == Contents(s) + chunk
  {
    PutAppends(s, chunk);
    PutWithoutCompaction(s, chunk);
  }

  /** While no put needs a compaction, the puts store the concatenation of the chunks after what was held. */
  lemma {:induction false} PutAllAppends(s: RingState, chunks: seq<seq<bv8>>)
    requires Coherent(s) && s.position + s.remaining + TotalLength(chunks) < |s.bytes|
    ensures var t := PutAll(s, chunks);
            Coherent(t) && t.position == s.position && Contents(t) == Contents(s) + Concat(chunks)
    decreases |chunks|
  {
    if chunks != [] {
      var s' := Put(s, chunks[0]).state;
      PutFitting(s, chunks[0]);
      PutAllAppends(s', chunks[1..]);
      assert PutAll(s, chunks) == PutAll(s', chunks[1..]);
      assert Concat(chunks) == chunks[0] + Concat(chunks[1..]);
      assert Contents(s) + chunks[0] + Concat(chunks[1..]) == Contents(s) + Concat(chunks);
    }
  }

  /** Chunks of total length below the capacity, put into a new buffer, are read back whole and in order. */
  lemma SnapshotIsConcatenation(size: nat, chunks: seq<seq<bv8>>)
    requires TotalLength(chunks) < size
    ensures var t := PutAll(Empty(size), chunks);
            t.remaining >= 0 && Peek(t, t.remaining) == Some(Concat(chunks))
  {
    PutAllAppends(Empty(size), chunks);
  }

  /** A state from which puts keep the stored count below the capacity: settled, or broken for good. */
  predicate Bounded(s: RingState) {
    Settled(s) || (s.position == 0 && s.remaining < 0)
  }

  /** Whatever chunks arrive, `remaining_` stays strictly below the capacity. */
  lemma {:induction false} PutAllBounded(s: RingState, chunks: seq<seq<bv8>>)
    requires Bounded(s)
    ensures Bounded(PutAll(s, chunks)) && PutAll(s, chunks).remaining < |s.bytes|
    decreases |chunks|
  {
    if chunks != [] {
      var step := Put(s, chunks[0]);
      if Settled(s) {
        if Fits(s, |chunks[0]|) || |chunks[0]| <= s.remaining {
          PutAppends(s, chunks[0]);
        } else {
          PutOverflowThrows(s, chunks[0]);
        }
      }
      PutAllBounded(step.state, chunks[1..]);
    }
  }

  /**
   * An overflowing chunk longer than the stored count leaves `remaining_` negative; from then on
   * every put throws and the buffer never changes again.
   */
  lemma {:induction false} OversizedChunkBreaksBuffer(s: RingState, chunk: seq<bv8>, later: seq<seq<bv8>>)
    requires Settled(s) && !Fits(s, |chunk|) && |chunk| > s.remaining
    ensures var broken := Put(s, chunk).state;
            && Put(s, chunk).result == RangeError
            && broken.remaining < 0
            && PutAll(broken, later) == broken
            && (forall c :: Put(broken, c).result == RangeError)
  {
    var broken := Put(s, chunk).state;
    PutOverflowThrows(s, chunk);
    StaysBroken(broken, later);
  }

  lemma {:induction false} StaysBroken(s: RingState, chunks: seq<seq<bv8>>)
    requires Valid(s) && s.position + s.remaining < 0
    ensures PutAll(s, chunks) == s
    decreases |chunks|
  {
    if chunks != [] {
      StaysBroken(Put(s, chunks[0]).state, chunks[1..]);
    }
  }

  /**
   * Chunks of at most half the capacity, put one after another into a settled buffer whose cursor
   * is at 0, never break it: a chunk that does not fit is never longer than what is held.
   */
  lemma {:induction false} HalfCapacityChunksKeepWorking(s: RingState, chunks: seq<seq<bv8>>)
    requires Settled(s) && s.position == 0
    requires forall i :: 0 <= i < |chunks| ==> 2 * |chunks[i]| <= |s.bytes|
    ensures Settled(PutAll(s, chunks)) && PutAll(s, chunks).position == 0
    decreases |chunks|
  {
    if chunks != [] {
      var c := chunks[0];
      assert 2 * |c| <= |s.bytes|;
      PutAppends(s, c);
      var t := Put(s, c).state;
      assert t.position == 0 by {
        if !Fits(s, |c|) {
          assert Put(s, c) == Store(Compact(s, |c|).value, c);
        }
      }
      HalfCapacityChunksKeepWorking(t, chunks[1..]);
      assert PutAll(s, chunks) == PutAll(t, chunks[1..]);
    }
  }

  /**
   * The bound is tight: in a buffer of 131072 bytes holding 65535, a chunk of 65537 bytes does not
   * fit, is longer than what is held, and breaks the buffer for good.
   */
  lemma JustOverHalfBreaks(a: seq<bv8>, b: seq<bv8>)
    requires |a| == 65535 && |b| == 65537
    ensures var held := Put(Empty(131072), a);
            && held.result == Stored
            && Put(held.state, b).result == RangeError
            && Put(held.state, b).state.remaining < 0
  {
    PutAppends(Empty(131072), a);
    PutOverflowThrows(Put(Empty(131072), a).state, b);
  }

  /**
   * Capacity 131072, chunks of 60000, 60000 and 40000 bytes: the third put evicts the first 40000 bytes
   * and the buffer holds the rest of the first chunk, the second chunk and the third, 120000 bytes.
   */
  lemma LookbackExample(a: seq<bv8>, b: seq<bv8>, c: seq<bv8>)
    requires |a| == 60000 && |b| == 60000 && |c| == 40000
    ensures var t := PutAll(Empty(131072), [a, b, c]);
            Coherent(t) && t.remaining == 120000 && Contents(t) == a[40000..] + b + c
  {
    var s0 := Empty(131072);
    PutAppends(s0, a);
    var s1 := Put(s0, a).state;
    assert Contents(s1) == a;
    PutAppends(s1, b);
    var s2 := Put(s1, b).state;
    assert Contents(s2) == a + b;
    PutAppends(s2, c);
    var s3 := Put(s2, c).state;
    assert !Fits(s2, |c|);
    assert Contents(s3) == (a + b)[40000..] + c;
    assert (a + b)[40000..] == a[40000..] + b;
    assert [a, b, c][1..] == [b, c] && [b, c][1..] == [c] && [c][1..] == [];
    assert PutAll(s3, []) == s3;
    assert PutAll(s2, [c]) == s3;
    assert PutAll(s1, [b, c]) == s3;
    assert PutAll(s0, [a, b, c]) == s3;
  }
}
