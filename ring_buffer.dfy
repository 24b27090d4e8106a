/**
 * class RingBuffer of server/src/RingBuffer.ts: a fixed-capacity byte cache over one array,
 * with a read cursor `position` and a stored-length counter `remaining`. Every method is
 * proved to change the state exactly as the matching function of RingBufferSpec says.
 */
module RingBuffers {
  import opened Wrappers
  import opened JsBuiltins
  import Spec = RingBufferSpec

  class RingBuffer {
    /** Maximum size in bytes that the ring buffer can hold (`size_`). */
    const size: nat
    /** The backing store (`buffer_`). */
    const buffer: array<bv8>
    /** Current offset into the backing store (`position_`). */
    var position: int
    /** Bytes counted as stored from the cursor on (`remaining_`). */
    var remaining: int

    ghost predicate Valid()
      reads this
    {
      buffer.Length == size && position >= 0
    }

    /** The fields as a value of the specification. */
    ghost function State(): (s: Spec.RingState)
      reads this, buffer
      ensures Valid() ==> Spec.Valid(s) && |s.bytes| == size
    {
      Spec.RingState(buffer[..], position, remaining)
    }

    constructor (size: nat)
      ensures Valid() && fresh(buffer)
      ensures State() == Spec.Empty(size)
    {
      this.size := size;
      buffer := new bv8[size](_ => 0);
      position := 0;
      remaining := 0;
    }

    /** `remaining()`. */
    method Remaining() returns (n: int)
      requires Valid()
      ensures n == State().remaining
    {
      n := remaining;
    }

    /** `peek(out, n)`, with `out` a fresh zero-filled buffer of `n` bytes. */
    method Peek(n: nat) returns (r: Option<seq<bv8>>)
      requires Valid()
      ensures r == Spec.Peek(State(), n)
    {
      if n > remaining {
        return None;
      }
      var out := new bv8[n](_ => 0);
      // Buffer.copy stops at the end of the backing store
      var count := if position + n <= size then n else if position <= size then size - position else 0;
      for i := 0 to count
        invariant forall k :: 0 <= k < i ==> out[k] == buffer[position + k]
        invariant forall k :: i <= k < n ==> out[k] == 0
      {
        out[i] := buffer[position + i];
      }
      assert out[..] == Spec.Window(buffer[..], position, n);
      r := Some(out[..]);
    }

    /** `compact(n)`; false is the RangeError out of Buffer.copy, raised before anything changes. */
    method Compact(n: nat) returns (ok: bool)
      requires Valid()
      modifies this, buffer
      ensures Valid()
      ensures ok ==> Spec.Compact(old(State()), n) == Some(State())
      ensures !ok ==> Spec.Compact(old(State()), n) == None && State() == old(State())
    {
      var end := position + remaining;
      if end < 0 {
        return false;
      }
      var start, stop := position + n, Min(end, size);
      if start < stop {
        MoveDown(start, stop);
      } else {
        assert buffer[..] == [] + old(buffer[..])[0..];
      }
      remaining := remaining - n;
      position := 0;
      ok := true;
    }

    /** `buffer_.copy(buffer_, 0, start, stop)`: bytes [start, stop) move to offset 0, the rest stays. */
    method MoveDown(start: nat, stop: nat)
      requires start < stop <= buffer.Length
      modifies buffer
      ensures buffer[..] == old(buffer[..])[start..stop] + old(buffer[..])[stop - start..]
    {
      var i := 0;
      while i < stop - start
        invariant 0 <= i <= stop - start
        invariant forall k :: 0 <= k < i ==> buffer[k] == old(buffer[start + k])
        invariant forall k :: i <= k < buffer.Length ==> buffer[k] == old(buffer[k])
      {
        buffer[i] := buffer[start + i];
        i := i + 1;
      }
    }

    /** `put(chunk)`. */
    method Put(chunk: seq<bv8>) returns (r: Spec.PutResult)
      requires Valid()
      modifies this, buffer
      ensures Valid()
      ensures Spec.Put(old(State()), chunk) == Spec.PutStep(State(), r)
    {
      if position + remaining + |chunk| >= size {
        var ok := Compact(|chunk|);
        if !ok {
          return Spec.RangeError;
        }
      }
      r := Store(chunk);
    }

    /** Lines 55-60 of `put`: the second space test, then the copy of the chunk after the stored window. */
    method Store(chunk: seq<bv8>) returns (r: Spec.PutResult)
      requires Valid()
      modifies this, buffer
      ensures Valid()
      ensures Spec.Store(old(State()), chunk) == Spec.PutStep(State(), r)
    {
      var n := |chunk|;
      if position + remaining + n >= size {
        return Spec.NoRoom;
      }
      var at := position + remaining;
      if at < 0 {
        return Spec.RangeError;
      }
      CopyIn(chunk, at);
      remaining := remaining + n;
      r := Spec.Stored;
    }

    /** `chunk.copy(buffer_, at)`: the chunk overwrites the bytes from offset `at` on, nothing else changes. */
    method CopyIn(chunk: seq<bv8>, at: nat)
      requires at + |chunk| <= buffer.Length
      modifies buffer
      ensures buffer[..] == old(buffer[..])[..at] + chunk + old(buffer[..])[at + |chunk|..]
    {
      for i := 0 to |chunk|
        invariant forall k :: 0 <= k < at ==> buffer[k] == old(buffer[k])
        invariant forall k :: 0 <= k < i ==> buffer[at + k] == chunk[k]
        invariant forall k :: at + i <= k < buffer.Length ==> buffer[k] == old(buffer[k])
      {
        buffer[at + i] := chunk[i];
      }
      ghost var written := old(buffer[..])[..at] + chunk + old(buffer[..])[at + |chunk|..];
      forall k | 0 <= k < buffer.Length
        ensures buffer[k] == written[k]
      {
        if k < at {
        } else if k < at + |chunk| {
          assert written[k] == chunk[k - at];
        } else {
          assert written[k] == old(buffer[k]);
        }
      }
      assert buffer[..] == written;
    }

    /** `rewind(n)`. */
    method Rewind(n: nat) returns (ok: bool)
      requires Valid()
      modifies this
      ensures Valid()
      ensures ok == Spec.Rewind(old(State()), n).Some?
      ensures ok ==> State() == Spec.Rewind(old(State()), n).value
      ensures !ok ==> State() == old(State())
    {
      if n > position {
        return false;
      }
      position := position - n;
      remaining := remaining + n;
      ok := true;
    }

    /** `get(out, n)`. */
    method Get(n: nat) returns (r: Option<seq<bv8>>)
      requires Valid()
      modifies this
      ensures Valid()
      ensures Spec.Get(old(State()), n) == Spec.ReadStep(State(), r)
    {
      r := Peek(n);
      if r.Some? {
        position := position + n;
        remaining := remaining + n;
      }
    }

    /** `getString(n)`: the bytes before decoding; None is the source's null. */
    method GetString(n: nat) returns (r: Option<seq<bv8>>)
      requires Valid()
      modifies this
      ensures Valid()
      ensures Spec.GetString(old(State()), n) == Spec.ReadStep(State(), r)
    {
      r := Peek(n);
      if r.Some? {
        position := position + n;
        remaining := remaining - n;
      }
    }

    /**
     * The generated `readUInt16BE`, `readUInt32BE` and `readUInt64BE`; None is the exception Node
     * raises for a read past the end, or, for 64 bits, for calling a Buffer method that does not exist.
     */
    method ReadUIntBE(w: Spec.Width) returns (r: Option<nat>)
      requires Valid()
      modifies this
      ensures Valid()
      ensures Spec.ReadUIntBE(old(State()), w) == Spec.NumberStep(State(), r)
    {
      var k := Spec.ByteCount(w);
      if w == Spec.U64 || position + k > size {
        return None;
      }
      var v: nat := 0;
      for i := 0 to k
        invariant v == Spec.BigEndian(buffer[position..position + i])
      {
        assert buffer[position..position + i + 1][..i] == buffer[position..position + i];
        v := v * 256 + buffer[position + i] as nat;
      }
      r := Some(v);
      position := position + k;
      remaining := remaining - k;
    }
  }
}
