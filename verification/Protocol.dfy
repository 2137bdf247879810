/** Byte strings, and the fixed-size framing protocol. */
module Protocol {
  import Bits
  import opened Sequences

  type Byte = n: nat | n < 256
  type Bytes = seq<Byte>

  datatype Option<+T> = None | Some(value: T)

  /** The frame, what is left of the buffer, and how many bytes the frame took. */
  datatype Parsed = Parsed(item: Bytes, remaining: Bytes, consumed: nat)

  /** `BufProtocol::append`: one frame off the front, or nothing while the buffer is too short. */
  function Append(buf: Bytes, size: nat): Option<Parsed> {
    if |buf| >= size then Some(Parsed(buf[..size], buf[size..], size)) else None
  }

  function Flatten(parts: seq<Bytes>): Bytes {
    if parts == [] then [] else parts[0] + Flatten(parts[1..])
  }

  lemma {:induction false} FlattenAppend(a: seq<Bytes>, b: seq<Bytes>)
    ensures Flatten(a + b) == Flatten(a) + Flatten(b)
  {
    if a == [] {
      assert a + b == b;
    } else {
      assert (a + b)[1..] == a[1..] + b;
      FlattenAppend(a[1..], b);
    }
  }

  /** The complete `size`-byte pieces of `b`, in order. */
  function Chunks(b: Bytes, size: nat): (frames: seq<Bytes>)
    requires size > 0
  {
    if |b| < size then [] else [b[..size]] + Chunks(b[size..], size)
  }

  /** What `Chunks` leaves over. */
  function Rest(b: Bytes, size: nat): (r: Bytes)
    requires size > 0
  {
    if |b| < size then b else Rest(b[size..], size)
  }

  lemma {:induction false} ChunksRebuild(b: Bytes, size: nat)
    requires size > 0
    ensures Flatten(Chunks(b, size)) + Rest(b, size) == b && |Rest(b, size)| < size
    ensures forall i :: 0 <= i < |Chunks(b, size)| ==> |Chunks(b, size)[i]| == size
  {
    if |b| >= size {
      ChunksRebuild(b[size..], size);
      assert b == b[..size] + b[size..];
    }
  }

  lemma {:induction false} FlattenLength(frames: seq<Bytes>, size: nat)
    requires forall i :: 0 <= i < |frames| ==> |frames[i]| == size
    ensures |Flatten(frames)| == size * |frames|
  {
    if frames != [] {
      FlattenLength(frames[1..], size);
      assert size * |frames| == size * |frames[1..]| + size by {
        assert |frames| == |frames[1..]| + 1;
      }
    }
  }

  /** Chunking loses nothing: the frames all have the size, there are `|b| / size` of them, and with
      the `|b| % size` bytes left over they make up `b` again. */
  lemma ChunksPartition(b: Bytes, size: nat)
    requires size > 0
    ensures Flatten(Chunks(b, size)) + Rest(b, size) == b
    ensures |Chunks(b, size)| == |b| / size && |Rest(b, size)| == |b| % size
    ensures forall i :: 0 <= i < |Chunks(b, size)| ==> |Chunks(b, size)[i]| == size
    ensures |Flatten(Chunks(b, size))| == size * |Chunks(b, size)| <= |b|
  {
    ChunksRebuild(b, size);
    var frames := Chunks(b, size);
    FlattenLength(frames, size);
    assert |b| == |Flatten(frames)| + |Rest(b, size)|;
    assert |frames| * size == size * |frames|;
    Bits.QuotientUnique(|b|, size, |frames|, |Rest(b, size)|);
  }

  lemma ChunksCons(frame: Bytes, rest: Bytes, size: nat)
    requires size > 0 && |frame| == size
    ensures Chunks(frame + rest, size) == [frame] + Chunks(rest, size)
  {
    var all := frame + rest;
    assert all[..size] == frame && all[size..] == rest;
  }

  /** Frames of the right size are recovered from the bytes they were flattened into. */
  lemma {:induction false} ChunksOfFlatten(frames: seq<Bytes>, tail: Bytes, size: nat)
    requires size > 0
    requires forall i :: 0 <= i < |frames| ==> |frames[i]| == size
    ensures Chunks(Flatten(frames) + tail, size) == frames + Chunks(tail, size)
  {
    if frames == [] {
      assert Flatten(frames) + tail == tail;
    } else {
      Regrouped(frames[0], Flatten(frames[1..]), tail);
      ChunksCons(frames[0], Flatten(frames[1..]) + tail, size);
      ChunksOfFlatten(frames[1..], tail, size);
      Regrouped([frames[0]], frames[1..], Chunks(tail, size));
      assert [frames[0]] + frames[1..] == frames;
    }
  }
}
