/** The memory-mapped bump allocator seen by one caller: the file header, the region object and
    the reservation arithmetic on 64-bit words. */
module Allocator {
  import opened Bits

  const WORD: nat := 0x1_0000_0000_0000_0000
  const ALIGN: nat := 8
  const ALIGN_BITS: nat := 3
  const MAGIC: nat := 0x42424242
  const HEADER_SIZE: nat := 24

  type Word = x: nat | x < WORD

  function Wrap(x: int): Word { x % WORD }

  /** What one call reports: a panic, a null pointer, or the offset of the block it reserved. */
  datatype Reply = Panicked | Exhausted | Block(offset: nat)

  datatype Result<+T> = Success(value: T) | Failure

  /** `(((offset + size) - 1) | (ALIGN - 1)) + 1` in wrapping 64-bit arithmetic. */
  function NextOffset(offset: Word, size: Word): Word {
    Wrap(BitOr(Wrap(offset + size - 1), ALIGN - 1) + 1)
  }

  /** The check made after the reservation; it looks only at where the block starts. */
  function ReplyAt(offset: nat, total: nat): Reply {
    if offset > total then Exhausted else Block(offset)
  }

  /** `n` rounded up to the alignment. */
  function RoundUp(n: nat): nat { (n + (ALIGN - 1)) / ALIGN * ALIGN }

  /** The "quick sanity check" of `load`. */
  predicate Rejects(magic: Word, recorded: Word, fileSize: Word) {
    magic != MAGIC && recorded != fileSize
  }

  /** A right magic number alone, or a right size alone, is enough; both wrong is turned down. */
  lemma RejectsExactly(magic: Word, recorded: Word, fileSize: Word)
    ensures magic == MAGIC ==> !Rejects(magic, recorded, fileSize)
    ensures recorded == fileSize ==> !Rejects(magic, recorded, fileSize)
    ensures magic != MAGIC && recorded != fileSize ==> Rejects(magic, recorded, fileSize)
  {
  }

  /** So a header is let through although it is wrong exactly when one of its two fields is right:
      the wrong magic number with the right size, or the reverse. */
  lemma BadHeaderAcceptedExactly(magic: Word, recorded: Word, fileSize: Word)
    ensures !Rejects(magic, recorded, fileSize) && !(magic == MAGIC && recorded == fileSize)
       <==> (magic == MAGIC) != (recorded == fileSize)
    ensures !Rejects(0, fileSize, fileSize) && !Rejects(MAGIC, Wrap(fileSize + 1), fileSize)
  {
  }

  /** A sequential allocator: the replies to requests made one after the other. */
  function Replay(current: Word, total: nat, sizes: seq<Word>): seq<Reply>
    decreases |sizes|
  {
    if sizes == [] then []
    else [ReplyAt(current, total)] + Replay(NextOffset(current, sizes[0]), total, sizes[1..])
  }

  /** The offset that the requests leave behind. */
  function OffsetAfter(current: Word, sizes: seq<Word>): Word
    decreases |sizes|
  {
    if sizes == [] then current else OffsetAfter(NextOffset(current, sizes[0]), sizes[1..])
  }

  lemma {:induction false} ReplayOneMore(current: Word, total: nat, sizes: seq<Word>, size: Word)
    ensures OffsetAfter(current, sizes + [size]) == NextOffset(OffsetAfter(current, sizes), size)
    ensures Replay(current, total, sizes + [size])
         == Replay(current, total, sizes) + [ReplyAt(OffsetAfter(current, sizes), total)]
    decreases |sizes|
  {
    var all := sizes + [size];
    if sizes == [] {
      assert all == [size] && [size][1..] == [];
    } else {
      assert all[1..] == sizes[1..] + [size];
      ReplayOneMore(NextOffset(current, sizes[0]), total, sizes[1..], size);
    }
  }

  lemma AlignIsPowerOfTwo()
    ensures Pow2(ALIGN_BITS) == ALIGN
  {
    assert Pow2(1) == 2 && Pow2(2) == 4;
  }

  lemma FastRoundIsRoundUp(x: nat)
    requires x >= 1
    ensures BitOr(x - 1, ALIGN - 1) + 1 == RoundUp(x)
  {
    AlignIsPowerOfTwo();
    BitOrMask(x - 1, ALIGN_BITS);
    assert (x + (ALIGN - 1)) / ALIGN == (x - 1) / ALIGN + 1;
  }

  lemma RoundUpBounds(n: nat)
    ensures RoundUp(n) % ALIGN == 0 && n <= RoundUp(n) < n + ALIGN
  {
  }

  lemma RoundUpShifts(offset: nat, size: nat)
    requires offset % ALIGN == 0
    ensures RoundUp(offset + size) == offset + RoundUp(size)
  {
  }

  lemma WrapCases(x: int)
    requires 0 - WORD <= x < 3 * WORD
    ensures Wrap(x) ==
      if x < 0 then x + WORD else if x < WORD then x else if x < 2 * WORD then x - WORD else x - 2 * WORD
  {
  }

  /** Wrapping before the rounding or after it comes to the same. */
  lemma WrapThenRound(sum: nat)
    requires sum <= 2 * WORD - 2
    ensures Wrap(RoundUp(Wrap(sum - 1) + 1)) == Wrap(RoundUp(sum))
  {
    WrapCases(sum - 1);
    if sum == 0 {
      assert RoundUp(WORD) == WORD && RoundUp(0) == 0;
    } else if sum > WORD {
      RoundUpShifts(WORD, sum - WORD);
      RoundUpBounds(sum - WORD);
      assert RoundUp(sum - WORD) <= WORD;
      WrapAgain(RoundUp(sum - WORD));
    }
  }

  lemma WrapAgain(x: nat)
    ensures Wrap(WORD + x) == Wrap(x)
  {
  }

  /** For every offset and size the word computed by `allocate` is the true rounded sum, wrapped. */
  lemma NextOffsetWraps(offset: Word, size: Word)
    ensures NextOffset(offset, size) == Wrap(RoundUp(offset + size))
  {
    FastRoundIsRoundUp(Wrap(offset + size - 1) + 1);
    WrapThenRound(offset + size);
  }

  /** So it is that sum exactly when the sum fits a word. */
  lemma NextOffsetExact(offset: Word, size: Word)
    ensures NextOffset(offset, size) == RoundUp(offset + size) <==> RoundUp(offset + size) < WORD
  {
    NextOffsetWraps(offset, size);
  }

  /** From an aligned offset, and while the sum fits, the reservation is aligned, holds the whole
      request, and wastes less than one alignment unit. */
  lemma ReservationHoldsRequest(offset: Word, size: Word)
    requires offset % ALIGN == 0 && offset + RoundUp(size) < WORD
    ensures NextOffset(offset, size) == offset + RoundUp(size)
    ensures NextOffset(offset, size) % ALIGN == 0
    ensures offset + size <= NextOffset(offset, size) < offset + size + ALIGN
  {
    NextOffsetWraps(offset, size);
    RoundUpShifts(offset, size);
    RoundUpBounds(offset + size);
  }

  /** A request whose rounded sum does not fit moves the next offset backwards. */
  lemma WrappedReservationGoesBack(offset: Word, size: Word)
    requires offset % ALIGN == 0 && offset + RoundUp(size) >= WORD
    ensures NextOffset(offset, size) <= offset && NextOffset(offset, size) < offset + size
  {
    NextOffsetWraps(offset, size);
    RoundUpShifts(offset, size);
    RoundUpBounds(size);
    assert RoundUp(size) <= WORD;
    WrapCases(offset + RoundUp(size));
  }

  /** So a reservation has room for its request exactly when the rounded sum fits a word. */
  lemma HoldsRequestExactly(offset: Word, size: Word)
    requires offset % ALIGN == 0
    ensures offset + size <= NextOffset(offset, size) <==> offset + RoundUp(size) < WORD
  {
    if offset + RoundUp(size) < WORD {
      ReservationHoldsRequest(offset, size);
    } else {
      WrappedReservationGoesBack(offset, size);
    }
  }

  /** A reservation holds its request and its range, padding included, ends inside the file exactly
      when its start plus the rounded size is at most the total, which a caller that knows the offset
      can check beforehand. */
  lemma EndsInsideExactly(offset: Word, size: Word, total: Word)
    requires offset % ALIGN == 0
    ensures offset + size <= NextOffset(offset, size) <= total <==> offset + RoundUp(size) <= total
  {
    HoldsRequestExactly(offset, size);
    if offset + RoundUp(size) < WORD { ReservationHoldsRequest(offset, size); }
  }

  /** The next offset is a multiple of the alignment even where the sum wraps. */
  lemma NextOffsetAligned(offset: Word, size: Word)
    ensures NextOffset(offset, size) % ALIGN == 0
  {
    var rounded := RoundUp(offset + size);
    NextOffsetWraps(offset, size);
    RoundUpBounds(offset + size);
    WrapCases(rounded);
  }

  /** A reservation that moves the offset forward did not wrap. */
  lemma ForwardReservation(offset: Word, size: Word)
    requires offset % ALIGN == 0 && offset < NextOffset(offset, size)
    ensures NextOffset(offset, size) == offset + RoundUp(size)
  {
    if offset + RoundUp(size) < WORD {
      ReservationHoldsRequest(offset, size);
    } else {
      WrappedReservationGoesBack(offset, size);
    }
  }

  lemma FirstOffsets()
    ensures NextOffset(24, 1) == 32 && NextOffset(32, 8) == 40 && NextOffset(40, 9) == 56
  {
    ReservationHoldsRequest(24, 1);
    ReservationHoldsRequest(32, 8);
    ReservationHoldsRequest(40, 9);
  }

  /** The constants in numbers: blocks of 1, 8 and 9 bytes in a new file start at 24, 32 and 40, and the
      next one at 56. */
  lemma FirstBlocks()
    ensures Replay(HEADER_SIZE, 1024, [1, 8, 9, 16]) == [Block(24), Block(32), Block(40), Block(56)]
  {
    FirstOffsets();
    var sizes: seq<Word> := [1, 8, 9, 16];
    assert sizes[1..] == [8, 9, 16];
    assert sizes[1..][1..] == [9, 16];
    assert sizes[1..][1..][1..] == [16];
    assert Replay(56, 1024, [16]) == [Block(56)] by { assert [16][1..] == []; }
    assert Replay(40, 1024, [9, 16]) == [Block(40), Block(56)];
    assert Replay(32, 1024, [8, 9, 16]) == [Block(32), Block(40), Block(56)];
  }

  /** A request at the top of the address space wraps modulo 2^64. */
  lemma LastOffset()
    ensures 0xFFFF_FFFF_FFFF_FFF8 < WORD && NextOffset(0xFFFF_FFFF_FFFF_FFF8, 16) == 8
  {
    NextOffsetWraps(0xFFFF_FFFF_FFFF_FFF8, 16);
  }

  class AtomicWord {
    var value: Word

    constructor (v: Word)
      ensures value == v
    {
      value := v;
    }

    method Load() returns (v: Word)
      ensures v == value
    {
      v := value;
    }

    method CompareAndSwap(expected: Word, desired: Word) returns (found: Word)
      modifies this
      ensures found == old(value)
      ensures value == if old(value) == expected then desired else old(value)
    {
      found := value;
      if value == expected { value := desired; }
    }

    method FetchAdd(n: Word)
      modifies this
      ensures value == Wrap(old(value) + n)
    {
      value := Wrap(value + n);
    }
  }

  /** The file behind a mapping: its size on disk and the header stored in its first bytes. */
  class MappedFile {
    var fileSize: Word
    var magic: Word
    var totalSize: Word
    const current: AtomicWord

    constructor (size: Word)
      ensures fileSize == size && fresh(current)
    {
      fileSize := size;
      magic := 0;
      totalSize := 0;
      current := new AtomicWord(0);
    }
  }

  class MappedRegion {
    const file: MappedFile
    const totalSize: Word
    const count: AtomicWord

    ghost predicate Valid() { count != file.current }

    /** Sizes the file and writes a new header; whatever was allocated before is forgotten. */
    constructor New(f: MappedFile, total: Word)
      modifies f, f.current
      ensures Valid() && file == f && totalSize == total && fresh(count) && count.value == 0
      ensures f.fileSize == total && f.magic == MAGIC == 0x4242_4242 && f.totalSize == total
      ensures f.current.value == HEADER_SIZE == RoundUp(HEADER_SIZE)
    {
      file := f;
      totalSize := total;
      count := new AtomicWord(0);
      new;
      f.fileSize := total;
      FastRoundIsRoundUp(HEADER_SIZE);
      var start := Wrap(BitOr(HEADER_SIZE - 1, ALIGN - 1) + 1);
      f.magic := MAGIC;
      f.totalSize := total;
      f.current.value := start;
    }

    constructor Reuse(f: MappedFile)
      ensures Valid() && file == f && totalSize == f.totalSize && fresh(count) && count.value == 0
    {
      file := f;
      totalSize := f.totalSize;
      count := new AtomicWord(0);
    }

    /** Maps an existing file. It is turned down only when the magic number and the recorded size
        are both wrong; the stored offset is kept and counting starts again from zero. */
    static method Load(f: MappedFile) returns (r: Result<MappedRegion>)
      ensures r.Failure? <==> Rejects(f.magic, f.totalSize, f.fileSize)
      ensures f.magic == MAGIC || f.totalSize == f.fileSize ==> r.Success?
      ensures r.Success? ==> fresh(r.value) && fresh(r.value.count) && r.value.Valid()
      ensures r.Success? ==> r.value.file == f && r.value.totalSize == f.totalSize && r.value.count.value == 0
    {
      if f.magic != MAGIC && f.totalSize != f.fileSize {
        return Failure;
      }
      var region := new MappedRegion.Reuse(f);
      return Success(region);
    }

    method NumAllocated() returns (n: Word)
      ensures n == count.value
    {
      n := count.Load();
    }

    /** Reserves by compare-and-swap, then checks the start of the block, then counts it. The
        reservation stays even when the reply is null. */
    method Allocate(size: Word, align: Word) returns (r: Reply)
      requires Valid()
      modifies file.current, count
      ensures r.Panicked? <==> align != ALIGN
      ensures r.Panicked? ==> unchanged(file.current) && unchanged(count)
      ensures !r.Panicked? ==> [r] == Replay(old(file.current.value), totalSize, [size])
      ensures r.Block? ==> r.offset == old(file.current.value)
      ensures r.Exhausted? <==> align == ALIGN && old(file.current.value) > totalSize
      ensures !r.Panicked? ==> file.current.value == NextOffset(old(file.current.value), size)
      ensures count.value == if r.Block? then Wrap(old(count.value) + 1) else old(count.value)
    {
      if align != ALIGN { return Panicked; }
      var offset: Word := 0;
      var won := false;
      while !won
        invariant won ==> offset == old(file.current.value)
        invariant file.current.value == if won then NextOffset(offset, size) else old(file.current.value)
        invariant count.value == old(count.value)
        decreases !won
      {
        offset := file.current.Load();
        var newval := Wrap(BitOr(Wrap(offset + size - 1), ALIGN - 1) + 1);
        var oldval := file.current.CompareAndSwap(offset, newval);
        won := offset == oldval;
      }
      if offset > totalSize { return Exhausted; }
      count.FetchAdd(1);
      return Block(offset);
    }

    /** A session: requests one after the other. */
    method Serve(sizes: seq<Word>) returns (replies: seq<Reply>)
      requires Valid() && count.value == 0
      modifies file.current, count
      ensures replies == Replay(old(file.current.value), totalSize, sizes)
      ensures file.current.value == OffsetAfter(old(file.current.value), sizes)
      ensures count.value == Wrap(Blocks(replies))
    {
      ghost var start := file.current.value;
      replies := [];
      for i := 0 to |sizes|
        invariant replies == Replay(start, totalSize, sizes[..i])
        invariant file.current.value == OffsetAfter(start, sizes[..i])
        invariant count.value == Wrap(Blocks(replies))
      {
        ghost var before := replies;
        var reply := Allocate(sizes[i], ALIGN);
        replies := replies + [reply];
        BlocksOneMore(before, reply);
        WrapCounts(Blocks(before));
        assert sizes[..i + 1] == sizes[..i] + [sizes[i]];
        ReplayOneMore(start, totalSize, sizes[..i], sizes[i]);
      }
      assert sizes[..|sizes|] == sizes;
    }

    /** A file from its creation over a session to the next load: the answers are the sequential ones,
        the file is taken back, its offset and total stay, and counting starts again. */
    static method CreateUseLoad(f: MappedFile, total: Word, sizes: seq<Word>)
      returns (replies: seq<Reply>, used: Word, r: Result<MappedRegion>)
      modifies f, f.current
      ensures replies == Replay(HEADER_SIZE, total, sizes)
      ensures used == Wrap(Blocks(replies))
      ensures r.Success? && r.value.file == f && r.value.totalSize == total && r.value.count.value == 0
      ensures f.current.value == OffsetAfter(HEADER_SIZE, sizes)
    {
      var region := new MappedRegion.New(f, total);
      replies := region.Serve(sizes);
      used := region.NumAllocated();
      r := Load(f);
    }
  }

  /** How many of the answers are blocks. */
  function Blocks(replies: seq<Reply>): nat {
    if replies == [] then 0
    else Blocks(replies[..|replies| - 1]) + (if replies[|replies| - 1].Block? then 1 else 0)
  }

  lemma BlocksOneMore(replies: seq<Reply>, r: Reply)
    ensures Blocks(replies + [r]) == Blocks(replies) + (if r.Block? then 1 else 0)
  {
    assert (replies + [r])[..|replies|] == replies;
  }

  /** Counting on wrapped words is counting, wrapped. */
  lemma WrapCounts(n: nat)
    ensures Wrap(Wrap(n) + 1) == Wrap(n + 1)
  {
    var q, r := n / WORD, n % WORD;
    if r + 1 < WORD {
      QuotientUnique(n + 1, WORD, q, r + 1);
      QuotientUnique(r + 1, WORD, 0, r + 1);
    } else {
      QuotientUnique(n + 1, WORD, q + 1, 0);
      QuotientUnique(WORD, WORD, 1, 0);
    }
  }
}
