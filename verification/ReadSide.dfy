/** The receiving half of a connection: bytes land in a buffer, a marker remembers how much of it has
    been framed, and a nearly full buffer is replaced. */
module ReadSide {
  import opened Protocol
  import opened Sequences

  /** `frame` is the protocol's fixed message size. */
  datatype Config = Config(readBufSize: nat, minReadBufSize: nat, frame: nat)

  datatype Inbound = Inbound(data: Bytes, room: nat, marker: nat, delivered: seq<Bytes>)

  ghost predicate InboundOk(i: Inbound, cfg: Config) {
    |i.data| + i.room == cfg.readBufSize && i.marker <= |i.data|
  }

  function NewInbound(cfg: Config): Inbound {
    Inbound([], cfg.readBufSize, 0, [])
  }

  function Unconsumed(i: Inbound): Bytes
    requires i.marker <= |i.data|
  {
    i.data[i.marker..]
  }

  predicate RollsOver(room: nat, n: nat, cfg: Config) {
    room - n < cfg.minReadBufSize
  }

  /** One successful read. The slice handed to the protocol is as long as this read and starts at the
      marker, so it lags behind the new bytes by whatever was unconsumed before. */
  function Receive(i: Inbound, bytes: Bytes, cfg: Config): (r: Inbound)
    requires cfg.frame > 0 && InboundOk(i, cfg) && |bytes| <= i.room
    ensures InboundOk(r, cfg)
  {
    var data := i.data + bytes;
    var slice := data[i.marker..i.marker + |bytes|];
    var frames := Chunks(slice, cfg.frame);
    ChunksPartition(slice, cfg.frame);
    if RollsOver(i.room, |bytes|, cfg) then
      var left := Rest(slice, cfg.frame);
      Inbound(left, cfg.readBufSize - |left|, 0, i.delivered + frames)
    else
      Inbound(data, i.room - |bytes|, i.marker + cfg.frame * |frames|, i.delivered + frames)
  }

  /** Reads one after the other; a read larger than the free window cannot happen and is skipped. */
  function ReceiveAll(i: Inbound, input: seq<Bytes>, cfg: Config): (r: Inbound)
    requires cfg.frame > 0 && InboundOk(i, cfg)
    ensures InboundOk(r, cfg)
    decreases |input|
  {
    if input == [] then i
    else if |input[0]| > i.room then ReceiveAll(i, input[1..], cfg)
    else ReceiveAll(Receive(i, input[0], cfg), input[1..], cfg)
  }

  // ---- what one read does ----

  function Residue(i: Inbound): nat
    requires i.marker <= |i.data|
  {
    |i.data| - i.marker
  }

  /** The bytes delivered in frames and those still waiting, in order. */
  function Held(i: Inbound): Bytes
    requires i.marker <= |i.data|
  {
    Flatten(i.delivered) + Unconsumed(i)
  }

  /** The slice of one read, cut into the frames' bytes and the leftover. */
  lemma SliceParts(i: Inbound, bytes: Bytes, cfg: Config) returns (data: Bytes, done: Bytes, left: Bytes)
    requires cfg.frame > 0 && InboundOk(i, cfg) && |bytes| <= i.room
    ensures data == i.data + bytes
    ensures
      var slice := data[i.marker..i.marker + |bytes|];
      var frames := Chunks(slice, cfg.frame);
      && done == Flatten(frames) && left == Rest(slice, cfg.frame)
      && |frames| == |bytes| / cfg.frame && |left| == |bytes| % cfg.frame && |done| == cfg.frame * |frames|
      && data[i.marker..][..|bytes|] == done + left
      && data[i.marker..] == done + data[i.marker + |done|..]
  {
    data := i.data + bytes;
    var slice := data[i.marker..i.marker + |bytes|];
    done, left := Flatten(Chunks(slice, cfg.frame)), Rest(slice, cfg.frame);
    ChunksPartition(slice, cfg.frame);
    SliceSplit(data, i.marker, |bytes|, done, left);
  }

  lemma ReceiveCounts(i: Inbound, bytes: Bytes, cfg: Config)
    requires cfg.frame > 0 && InboundOk(i, cfg) && |bytes| <= i.room
    ensures
      var i' := Receive(i, bytes, cfg);
      && |i'.delivered| == |i.delivered| + |bytes| / cfg.frame
      && Residue(i') == |bytes| % cfg.frame + (if i.room - |bytes| < cfg.minReadBufSize then 0 else Residue(i))
  {
    var data, done, left := SliceParts(i, bytes, cfg);
    assert |done| + |left| == |bytes|;
  }

  /** What the buffer and the deliveries look like after the read. */
  lemma ReceiveAnatomy(i: Inbound, bytes: Bytes, cfg: Config) returns (data: Bytes, done: Bytes, left: Bytes)
    requires cfg.frame > 0 && InboundOk(i, cfg) && |bytes| <= i.room
    ensures data == i.data + bytes && i.marker + |done| <= |data|
    ensures data[i.marker..][..|bytes|] == done + left
    ensures data[i.marker..] == done + data[i.marker + |done|..]
    ensures
      var i' := Receive(i, bytes, cfg);
      && Flatten(i'.delivered) == Flatten(i.delivered) + done
      && Unconsumed(i') == if RollsOver(i.room, |bytes|, cfg) then left else data[i.marker + |done|..]
  {
    data, done, left := SliceParts(i, bytes, cfg);
    FlattenAppend(i.delivered, Chunks(data[i.marker..i.marker + |bytes|], cfg.frame));
  }

  /** A read appends its bytes to what is held; if the buffer is replaced, the last bytes are cut off,
      as many as were waiting before the read. */
  lemma ReceiveConserves(i: Inbound, bytes: Bytes, cfg: Config)
    requires cfg.frame > 0 && InboundOk(i, cfg) && |bytes| <= i.room
    ensures
      var i' := Receive(i, bytes, cfg);
      var whole := Held(i) + bytes;
      && Residue(i) <= |whole|
      && Held(i') == (if i.room - |bytes| < cfg.minReadBufSize then whole[..|whole| - Residue(i)] else whole)
  {
    var data, done, left := ReceiveAnatomy(i, bytes, cfg);
    assert data[i.marker..] == Unconsumed(i) + bytes;
    CutTail(Flatten(i.delivered), Unconsumed(i), bytes, done, left, data[i.marker + |done|..]);
  }

  lemma KeptBuffer(i: Inbound, bytes: Bytes, cfg: Config)
    requires cfg.frame > 0 && InboundOk(i, cfg) && |bytes| <= i.room && i.room - |bytes| >= cfg.minReadBufSize
    ensures
      var i' := Receive(i, bytes, cfg);
      && i'.data == i.data + bytes && i'.room == i.room - |bytes|
      && i'.marker == i.marker + cfg.frame * (|bytes| / cfg.frame)
  {
    var data, done, left := SliceParts(i, bytes, cfg);
  }

  lemma NewBuffer(i: Inbound, bytes: Bytes, cfg: Config)
    requires cfg.frame > 0 && InboundOk(i, cfg) && |bytes| <= i.room && i.room - |bytes| < cfg.minReadBufSize
    ensures
      var i' := Receive(i, bytes, cfg);
      && i'.marker == 0 && i'.data == Rest((Unconsumed(i) + bytes)[..|bytes|], cfg.frame)
      && |i'.data| == |bytes| % cfg.frame && |i'.data| + i'.room == cfg.readBufSize
  {
    var data, done, left := SliceParts(i, bytes, cfg);
    assert data[i.marker..i.marker + |bytes|] == (Unconsumed(i) + bytes)[..|bytes|];
  }

  /** The buffer is kept, with everything in it, as long as the window left is not below the minimum;
      otherwise a new one starts with the last bytes of the slice that make no frame. */
  lemma ReplacedExactly(i: Inbound, bytes: Bytes, cfg: Config)
    requires cfg.frame > 0 && InboundOk(i, cfg) && |bytes| <= i.room
    ensures
      var i' := Receive(i, bytes, cfg);
      if i.room - |bytes| >= cfg.minReadBufSize then
        && i'.data == i.data + bytes && i'.room == i.room - |bytes|
        && i'.marker == i.marker + cfg.frame * (|bytes| / cfg.frame)
        && Held(i') == Held(i) + bytes
      else
        && i'.marker == 0 && i'.data == Rest((Unconsumed(i) + bytes)[..|bytes|], cfg.frame)
        && |i'.data| == |bytes| % cfg.frame && |i'.data| + i'.room == cfg.readBufSize
  {
    if i.room - |bytes| >= cfg.minReadBufSize {
      KeptBuffer(i, bytes, cfg);
      ReceiveConserves(i, bytes, cfg);
    } else {
      NewBuffer(i, bytes, cfg);
    }
  }

  lemma CutTail(f: Bytes, waiting: Bytes, bytes: Bytes, done: Bytes, left: Bytes, behind: Bytes)
    requires waiting + bytes == done + behind && (waiting + bytes)[..|bytes|] == done + left
    ensures (f + done) + behind == (f + waiting) + bytes
    ensures (f + done) + left == ((f + waiting) + bytes)[..|f + waiting + bytes| - |waiting|]
  {
    var tail := waiting + bytes;
    Regrouped(f, waiting, bytes);
    Regrouped(f, done, behind);
    Regrouped(f, done, left);
    assert (f + tail)[..|f| + |bytes|] == f + tail[..|bytes|];
  }

  /** A slice of `data` cut in two, and what lies behind it. */
  lemma SliceSplit(data: Bytes, from: nat, n: nat, done: Bytes, left: Bytes)
    requires from + n <= |data| && data[from..from + n] == done + left
    ensures data[from..] == done + data[from + |done|..]
    ensures data[from..][..n] == done + left
    ensures |done| + |left| == n
  {
    assert done == data[from..from + n][..|done|] == data[from..from + |done|];
  }

  // ---- whole runs of reads ----

  /** The bytes of the reads that happened. */
  function Stream(room: nat, input: seq<Bytes>, cfg: Config): Bytes
    requires cfg.frame > 0
    decreases |input|
  {
    if input == [] then []
    else
      var n := |input[0]|;
      if n > room then Stream(room, input[1..], cfg)
      else input[0] + Stream(NextRoom(room, n, cfg), input[1..], cfg)
  }

  /** The free window after a read of `n` bytes. */
  function NextRoom(room: nat, n: nat, cfg: Config): nat
    requires cfg.frame > 0 && n <= room
  {
    if !RollsOver(room, n, cfg) then room - n
    else if n % cfg.frame <= cfg.readBufSize then cfg.readBufSize - n % cfg.frame
    else 0
  }

  function NextResidue(room: nat, residue: nat, n: nat, cfg: Config): nat
    requires cfg.frame > 0
  {
    n % cfg.frame + (if RollsOver(room, n, cfg) then 0 else residue)
  }

  /** How many bytes wait for a frame after the reads, from their sizes alone. */
  function Waiting(room: nat, residue: nat, input: seq<Bytes>, cfg: Config): nat
    requires cfg.frame > 0
    decreases |input|
  {
    if input == [] then residue
    else
      var n := |input[0]|;
      if n > room then Waiting(room, residue, input[1..], cfg)
      else Waiting(NextRoom(room, n, cfg), NextResidue(room, residue, n, cfg), input[1..], cfg)
  }

  /** What is left of the received bytes, computed from the read sizes alone: at each rollover the
      last `residue` bytes go. */
  function Survivors(room: nat, residue: nat, kept: Bytes, input: seq<Bytes>, cfg: Config): Bytes
    requires cfg.frame > 0
    decreases |input|
  {
    if input == [] then kept
    else
      var n := |input[0]|;
      if n > room then Survivors(room, residue, kept, input[1..], cfg)
      else
        var whole := kept + input[0];
        var kept' := if RollsOver(room, n, cfg) && residue <= |whole| then whole[..|whole| - residue] else whole;
        Survivors(NextRoom(room, n, cfg), NextResidue(room, residue, n, cfg), kept', input[1..], cfg)
  }

  /** Every rollover finds nothing waiting from before its read. */
  predicate Lossless(room: nat, residue: nat, input: seq<Bytes>, cfg: Config)
    requires cfg.frame > 0
    decreases |input|
  {
    input == [] ||
    var n := |input[0]|;
    if n > room then Lossless(room, residue, input[1..], cfg)
    else
      && (RollsOver(room, n, cfg) ==> residue == 0)
      && Lossless(NextRoom(room, n, cfg), NextResidue(room, residue, n, cfg), input[1..], cfg)
  }

  function FramesRead(room: nat, input: seq<Bytes>, cfg: Config): nat
    requires cfg.frame > 0
    decreases |input|
  {
    if input == [] then 0
    else
      var n := |input[0]|;
      if n > room then FramesRead(room, input[1..], cfg)
      else n / cfg.frame + FramesRead(NextRoom(room, n, cfg), input[1..], cfg)
  }

  lemma ReceiveRoom(i: Inbound, bytes: Bytes, cfg: Config)
    requires cfg.frame > 0 && InboundOk(i, cfg) && |bytes| <= i.room
    ensures Receive(i, bytes, cfg).room == NextRoom(i.room, |bytes|, cfg)
    ensures RollsOver(i.room, |bytes|, cfg) ==> |bytes| % cfg.frame <= cfg.readBufSize
  {
    var slice := (i.data + bytes)[i.marker..i.marker + |bytes|];
    ChunksPartition(slice, cfg.frame);
  }

  /** Conservation over any sequence of reads and rollovers: delivered frames followed by the waiting
      bytes are the surviving bytes, and the number of frames is the sum of the whole frames in each
      single read. */
  lemma {:induction false} ReceiveAllConserves(i: Inbound, input: seq<Bytes>, cfg: Config)
    requires cfg.frame > 0 && InboundOk(i, cfg)
    ensures
      var i' := ReceiveAll(i, input, cfg);
      && Held(i') == Survivors(i.room, Residue(i), Held(i), input, cfg)
      && |i'.delivered| == |i.delivered| + FramesRead(i.room, input, cfg)
    decreases |input|
  {
    if input != [] {
      if |input[0]| > i.room {
        ReceiveAllConserves(i, input[1..], cfg);
      } else {
        ReceiveConserves(i, input[0], cfg);
        ReceiveCounts(i, input[0], cfg);
        ReceiveRoom(i, input[0], cfg);
        ReceiveAllConserves(Receive(i, input[0], cfg), input[1..], cfg);
      }
    }
  }

  lemma {:induction false} SurvivorsLength(room: nat, residue: nat, kept: Bytes, input: seq<Bytes>, cfg: Config)
    requires cfg.frame > 0 && residue <= |kept|
    ensures
      var s := Survivors(room, residue, kept, input, cfg);
      var all := kept + Stream(room, input, cfg);
      && (Lossless(room, residue, input, cfg) ==> s == all)
      && (!Lossless(room, residue, input, cfg) ==> |s| < |all|)
      && |s| <= |all|
    decreases |input|
  {
    if input == [] {
      assert kept + [] == kept;
    } else if |input[0]| > room {
      SurvivorsLength(room, residue, kept, input[1..], cfg);
    } else {
      var n, whole := |input[0]|, kept + input[0];
      var kept' := if RollsOver(room, n, cfg) then whole[..|whole| - residue] else whole;
      var room', residue' := NextRoom(room, n, cfg), NextResidue(room, residue, n, cfg);
      ModBelow(n, cfg.frame);
      SurvivorsLength(room', residue', kept', input[1..], cfg);
      assert whole + Stream(room', input[1..], cfg) == kept + Stream(room, input, cfg);
    }
  }

  lemma ModBelow(n: nat, size: nat)
    requires size > 0
    ensures n % size <= n
  {
    if n < size { assert n % size == n; }
  }

  /** From a new connection, no received byte is lost exactly when every rollover finds a residue of
      zero; then frames and waiting bytes are the received stream. */
  lemma NothingLostExactly(input: seq<Bytes>, cfg: Config)
    requires cfg.frame > 0
    ensures
      var i := ReceiveAll(NewInbound(cfg), input, cfg);
      Held(i) == Stream(cfg.readBufSize, input, cfg) <==> Lossless(cfg.readBufSize, 0, input, cfg)
  {
    ReceiveAllConserves(NewInbound(cfg), input, cfg);
    SurvivorsLength(cfg.readBufSize, 0, [], input, cfg);
    assert Held(NewInbound(cfg)) == [];
    assert [] + Stream(cfg.readBufSize, input, cfg) == Stream(cfg.readBufSize, input, cfg);
  }

  function TotalSize(input: seq<Bytes>): nat {
    if input == [] then 0 else |input[0]| + TotalSize(input[1..])
  }

  lemma {:induction false} RoomForAll(i: Inbound, input: seq<Bytes>, cfg: Config)
    requires cfg.frame > 0 && InboundOk(i, cfg) && TotalSize(input) + cfg.minReadBufSize <= i.room
    ensures
      var i' := ReceiveAll(i, input, cfg);
      && i'.data == i.data + Flatten(input) && i'.room == i.room - TotalSize(input)
      && Held(i') == Held(i) + Flatten(input)
    decreases |input|
  {
    if input == [] {
      assert i.data + [] == i.data && Held(i) + [] == Held(i);
    } else {
      var next := Receive(i, input[0], cfg);
      ReplacedExactly(i, input[0], cfg);
      RoomForAll(next, input[1..], cfg);
      Regrouped(i.data, input[0], Flatten(input[1..]));
      Regrouped(Held(i), input[0], Flatten(input[1..]));
    }
  }

  /** As long as all that arrives fits the first buffer and leaves the minimum window, the buffer is the
      stream and nothing is lost, however the stream is cut into reads. */
  lemma FirstBufferKeepsAll(input: seq<Bytes>, cfg: Config)
    requires cfg.frame > 0 && TotalSize(input) + cfg.minReadBufSize <= cfg.readBufSize
    ensures
      var i := ReceiveAll(NewInbound(cfg), input, cfg);
      i.data == Flatten(input) && Held(i) == Flatten(input)
  {
    RoomForAll(NewInbound(cfg), input, cfg);
    assert Held(NewInbound(cfg)) == [];
    assert [] + Flatten(input) == Flatten(input);
  }

  // ---- the marker and the frames of the current buffer ----

  /** All frames have the frame size, and those since the last rollover are the leading chunks of the
      buffer, up to the marker. */
  ghost predicate Framed(i: Inbound, cfg: Config)
    requires cfg.frame > 0
  {
    && i.marker <= |i.data|
    && (forall k :: 0 <= k < |i.delivered| ==> |i.delivered[k]| == cfg.frame)
    && var recent := Chunks(i.data[..i.marker], cfg.frame);
       && i.marker == cfg.frame * |recent|
       && |recent| <= |i.delivered|
       && i.delivered[|i.delivered| - |recent|..] == recent
  }

  lemma {:induction false} ChunksExtend(a: Bytes, b: Bytes, size: nat)
    requires size > 0 && |a| == size * |Chunks(a, size)|
    ensures Chunks(a + b, size) == Chunks(a, size) + Chunks(b, size)
  {
    ChunksPartition(a, size);
    assert Rest(a, size) == [];
    assert Flatten(Chunks(a, size)) + [] == Flatten(Chunks(a, size));
    ChunksOfFlatten(Chunks(a, size), b, size);
  }

  lemma ReceiveKeepsFramed(i: Inbound, bytes: Bytes, cfg: Config)
    requires cfg.frame > 0 && InboundOk(i, cfg) && |bytes| <= i.room && Framed(i, cfg)
    ensures Framed(Receive(i, bytes, cfg), cfg)
  {
    var i' := Receive(i, bytes, cfg);
    var data, done, left := SliceParts(i, bytes, cfg);
    var frames := Chunks(data[i.marker..i.marker + |bytes|], cfg.frame);
    ChunksPartition(data[i.marker..i.marker + |bytes|], cfg.frame);
    if RollsOver(i.room, |bytes|, cfg) {
      assert i'.data[..0] == [];
    } else {
      MarkedPrefix(data, i.data, i.marker, done);
      FramesExtend(i.data[..i.marker], frames, cfg.frame);
      SuffixExtend(i.delivered, Chunks(i.data[..i.marker], cfg.frame), frames);
    }
  }

  lemma MarkedPrefix(data: Bytes, before: Bytes, marker: nat, done: Bytes)
    requires marker <= |before| && before <= data && marker + |done| <= |data|
    requires data[marker..] == done + data[marker + |done|..]
    ensures data[..marker + |done|] == before[..marker] + done
  {
    assert data[..marker] == before[..marker];
    assert data[marker..][..|done|] == done;
  }

  lemma SuffixExtend(all: seq<Bytes>, recent: seq<Bytes>, more: seq<Bytes>)
    requires |recent| <= |all| && all[|all| - |recent|..] == recent
    ensures |recent + more| <= |all + more|
    ensures (all + more)[|all + more| - |recent + more|..] == recent + more
  {
  }

  lemma Distribute(a: nat, b: nat, c: nat)
    ensures a * (b + c) == a * b + a * c
  {
  }

  lemma FramesExtend(a: Bytes, frames: seq<Bytes>, size: nat)
    requires size > 0 && |a| == size * |Chunks(a, size)|
    requires forall i :: 0 <= i < |frames| ==> |frames[i]| == size
    ensures Chunks(a + Flatten(frames), size) == Chunks(a, size) + frames
    ensures size * |Chunks(a, size) + frames| == |a| + size * |frames|
  {
    ChunksExtend(a, Flatten(frames), size);
    assert Flatten(frames) + [] == Flatten(frames);
    ChunksOfFlatten(frames, [], size);
    Distribute(size, |Chunks(a, size)|, |frames|);
  }

  lemma {:induction false} ReceiveAllKeepsFramed(i: Inbound, input: seq<Bytes>, cfg: Config)
    requires cfg.frame > 0 && InboundOk(i, cfg) && Framed(i, cfg)
    ensures Framed(ReceiveAll(i, input, cfg), cfg)
    decreases |input|
  {
    if input != [] {
      if |input[0]| > i.room {
        ReceiveAllKeepsFramed(i, input[1..], cfg);
      } else {
        ReceiveKeepsFramed(i, input[0], cfg);
        ReceiveAllKeepsFramed(Receive(i, input[0], cfg), input[1..], cfg);
      }
    }
  }

  /** The number of waiting bytes is the one computed from the read sizes. */
  lemma {:induction false} ReceiveAllWaits(i: Inbound, input: seq<Bytes>, cfg: Config)
    requires cfg.frame > 0 && InboundOk(i, cfg)
    ensures Residue(ReceiveAll(i, input, cfg)) == Waiting(i.room, Residue(i), input, cfg)
    decreases |input|
  {
    if input != [] {
      if |input[0]| > i.room {
        ReceiveAllWaits(i, input[1..], cfg);
      } else {
        ReceiveCounts(i, input[0], cfg);
        ReceiveRoom(i, input[0], cfg);
        ReceiveAllWaits(Receive(i, input[0], cfg), input[1..], cfg);
      }
    }
  }

  /** Order is kept whatever is lost: the delivered frames are the first chunks of the surviving
      bytes, and they are all of them exactly when the read sizes leave less than a frame waiting. */
  lemma DeliveredInOrder(input: seq<Bytes>, cfg: Config)
    requires cfg.frame > 0
    ensures
      var i := ReceiveAll(NewInbound(cfg), input, cfg);
      var all := Chunks(Survivors(cfg.readBufSize, 0, [], input, cfg), cfg.frame);
      && i.delivered <= all
      && (i.delivered == all <==> Waiting(cfg.readBufSize, 0, input, cfg) < cfg.frame)
      && Framed(i, cfg)
  {
    var i := ReceiveAll(NewInbound(cfg), input, cfg);
    ReadStory(input, cfg);
    ReceiveAllWaits(NewInbound(cfg), input, cfg);
    FramesThenRest(i.delivered, Unconsumed(i), cfg.frame);
  }

  lemma FramesThenRest(frames: seq<Bytes>, tail: Bytes, size: nat)
    requires size > 0 && forall k :: 0 <= k < |frames| ==> |frames[k]| == size
    ensures
      var all := Chunks(Flatten(frames) + tail, size);
      frames <= all && (frames == all <==> |tail| < size)
  {
    ChunksOfFlatten(frames, tail, size);
  }

  /** The read side of any connection, from the byte strings that arrived for it. */
  lemma ReadStory(input: seq<Bytes>, cfg: Config)
    requires cfg.frame > 0
    ensures
      var i := ReceiveAll(NewInbound(cfg), input, cfg);
      && Held(i) == Survivors(cfg.readBufSize, 0, [], input, cfg)
      && |i.delivered| == FramesRead(cfg.readBufSize, input, cfg)
      && Framed(i, cfg)
  {
    ReceiveAllConserves(NewInbound(cfg), input, cfg);
    assert Held(NewInbound(cfg)) == [];
    ReceiveAllKeepsFramed(NewInbound(cfg), input, cfg);
  }

  /** The messages carry every received byte, in order and once each, exactly when no rollover finds
      bytes waiting from before its read and none wait at the end: a condition on the read sizes. */
  lemma DeliveredWholeExactly(input: seq<Bytes>, cfg: Config)
    requires cfg.frame > 0
    ensures
      Flatten(ReceiveAll(NewInbound(cfg), input, cfg).delivered) == Stream(cfg.readBufSize, input, cfg) <==>
        Lossless(cfg.readBufSize, 0, input, cfg) && Waiting(cfg.readBufSize, 0, input, cfg) == 0
  {
    var i := ReceiveAll(NewInbound(cfg), input, cfg);
    ReceiveAllConserves(NewInbound(cfg), input, cfg);
    ReceiveAllWaits(NewInbound(cfg), input, cfg);
    assert Held(NewInbound(cfg)) == [];
    var stream := Stream(cfg.readBufSize, input, cfg);
    SurvivorsLength(cfg.readBufSize, 0, [], input, cfg);
    assert [] + stream == stream;
    PartIsWhole(Flatten(i.delivered), Unconsumed(i), stream);
  }

  lemma PartIsWhole(part: Bytes, tail: Bytes, whole: Bytes)
    requires part + tail == whole || |part + tail| < |whole|
    ensures part == whole <==> part + tail == whole && tail == []
  {
    if tail == [] { assert part + tail == part; }
  }

  lemma {:induction false} AlignedReadsLeaveNothing(room: nat, input: seq<Bytes>, cfg: Config)
    requires cfg.frame > 0
    requires forall k :: 0 <= k < |input| ==> |input[k]| % cfg.frame == 0
    ensures Lossless(room, 0, input, cfg) && Waiting(room, 0, input, cfg) == 0
    decreases |input|
  {
    if input != [] {
      assert forall k :: 0 <= k < |input[1..]| ==> input[1..][k] == input[k + 1];
      var n := |input[0]|;
      AlignedReadsLeaveNothing(if n > room then room else NextRoom(room, n, cfg), input[1..], cfg);
    }
  }

  /** When every read is a whole number of frames, the messages are exactly the received stream cut
      into frames, over any number of rollovers. */
  lemma AlignedDelivery(input: seq<Bytes>, cfg: Config)
    requires cfg.frame > 0
    requires forall k :: 0 <= k < |input| ==> |input[k]| % cfg.frame == 0
    ensures
      var i := ReceiveAll(NewInbound(cfg), input, cfg);
      i.delivered == Chunks(Stream(cfg.readBufSize, input, cfg), cfg.frame) && Unconsumed(i) == []
  {
    assert Held(NewInbound(cfg)) == [];
    AlignedReadsLeaveNothing(cfg.readBufSize, input, cfg);
    NothingLostExactly(input, cfg);
    DeliveredInOrder(input, cfg);
    ReceiveAllConserves(NewInbound(cfg), input, cfg);
    ReceiveAllWaits(NewInbound(cfg), input, cfg);
  }

  /** How the stream is cut into reads matters: two bytes in one read make a frame of two, the same
      bytes one at a time make none. */
  lemma FragmentationMatters(a: Byte, b: Byte)
    ensures
      var cfg := Config(1536, 64, 2);
      && ReceiveAll(NewInbound(cfg), [[a, b]], cfg).delivered == [[a, b]]
      && ReceiveAll(NewInbound(cfg), [[a], [b]], cfg).delivered == []
  {
    var cfg := Config(1536, 64, 2);
    ReceiveAllConserves(NewInbound(cfg), [[a], [b]], cfg);
    assert [[a], [b]][1..] == [[b]];
    assert FramesRead(1536, [[a], [b]], cfg) == FramesRead(1535, [[b]], cfg) == 0;
    assert [[a, b]][1..] == [];
    var i := Receive(NewInbound(cfg), [a, b], cfg);
    assert ([] + [a, b])[0..0 + 2] == [a, b];
    var pair: Bytes := [a, b];
    assert pair[..2] == pair && Chunks(pair[2..], 2) == [];
    assert Chunks(pair, 2) == [pair];
  }

  // ---- room to read ----

  lemma ModOfSmaller(n: nat, size: nat)
    requires n < size
    ensures n % size == n
  {
  }

  /** A read into a new buffer that leaves too small a window, when there is one. */
  lemma NarrowWindow(cfg: Config) returns (bytes: Bytes)
    requires cfg.frame > 0 && cfg.minReadBufSize > 0
    requires cfg.frame - 1 + cfg.minReadBufSize > cfg.readBufSize
    ensures |bytes| <= cfg.readBufSize
    ensures Receive(NewInbound(cfg), bytes, cfg).room < cfg.minReadBufSize
  {
    var n := if cfg.frame - 1 <= cfg.readBufSize then cfg.frame - 1 else cfg.readBufSize;
    ModOfSmaller(n, cfg.frame);
    bytes := seq(n, _ => 0);
    ReceiveRoom(NewInbound(cfg), bytes, cfg);
  }

  /** After any read from any state the free window is at least the configured minimum, exactly when
      the minimum is zero or fits beside the largest leftover. */
  lemma WindowStaysOpenExactly(cfg: Config)
    requires cfg.frame > 0
    ensures
      (forall i: Inbound, bytes: Bytes :: InboundOk(i, cfg) && |bytes| <= i.room ==>
        Receive(i, bytes, cfg).room >= cfg.minReadBufSize)
      <==> cfg.minReadBufSize == 0 || cfg.frame - 1 + cfg.minReadBufSize <= cfg.readBufSize
  {
    if cfg.minReadBufSize > 0 && cfg.frame - 1 + cfg.minReadBufSize > cfg.readBufSize {
      var bytes := NarrowWindow(cfg);
      assert InboundOk(NewInbound(cfg), cfg);
    } else {
      forall i: Inbound, bytes: Bytes | InboundOk(i, cfg) && |bytes| <= i.room
        ensures Receive(i, bytes, cfg).room >= cfg.minReadBufSize
      {
        ReceiveRoom(i, bytes, cfg);
      }
    }
  }

  /** A read that leaves no window, when the configuration allows one. */
  lemma FillingRead(cfg: Config)
    requires cfg.frame > 0 && cfg.readBufSize > 0
    requires cfg.minReadBufSize == 0 || cfg.frame > cfg.readBufSize
    ensures exists bytes: Bytes :: |bytes| == cfg.readBufSize && Receive(NewInbound(cfg), bytes, cfg).room == 0
  {
    var n := cfg.readBufSize;
    var bytes: Bytes := seq(n, _ => 0);
    ReceiveRoom(NewInbound(cfg), bytes, cfg);
    if cfg.frame > n { ModOfSmaller(n, cfg.frame); }
    assert |bytes| == n && Receive(NewInbound(cfg), bytes, cfg).room == 0;
  }

  /** A read never closes an open window exactly when buffers are replaced at all, which takes a
      minimum above zero, and a leftover always leaves some of the new buffer free. */
  lemma WindowNeverClosesExactly(cfg: Config)
    requires cfg.frame > 0
    ensures
      (forall i: Inbound, bytes: Bytes :: InboundOk(i, cfg) && i.room > 0 && |bytes| <= i.room ==>
        Receive(i, bytes, cfg).room > 0)
      <==> cfg.readBufSize == 0 || (cfg.minReadBufSize > 0 && cfg.frame <= cfg.readBufSize)
  {
    if cfg.readBufSize > 0 && (cfg.minReadBufSize == 0 || cfg.frame > cfg.readBufSize) {
      FillingRead(cfg);
      assert InboundOk(NewInbound(cfg), cfg);
    } else {
      forall i: Inbound, bytes: Bytes | InboundOk(i, cfg) && i.room > 0 && |bytes| <= i.room
        ensures Receive(i, bytes, cfg).room > 0
      {
        ReceiveRoom(i, bytes, cfg);
      }
    }
  }

  /** Without a minimum a closed window ends reading for good: nothing that happens later is taken in
      or delivered. */
  lemma {:induction false} ClosedWindowEndsReading(i: Inbound, input: seq<Bytes>, cfg: Config)
    requires cfg.frame > 0 && InboundOk(i, cfg) && i.room == 0 && cfg.minReadBufSize == 0
    ensures ReceiveAll(i, input, cfg) == i
    decreases |input|
  {
    if input != [] {
      ClosedWindowEndsReading(i, input[1..], cfg);
      if input[0] == [] {
        assert (i.data + [])[i.marker..i.marker + 0] == [];
        assert i.data + [] == i.data && i.delivered + [] == i.delivered;
        assert Receive(i, [], cfg) == i;
      }
    }
  }
}
