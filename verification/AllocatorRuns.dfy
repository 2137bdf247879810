/** What holds of every run of the allocator by any number of threads over any number of sessions. */
module AllocatorRuns {
  import opened Allocator
  import opened AllocatorThreads

  // ---- linearizability ----

  lemma {:induction false} ReplayFollowsLog(s: State, k: nat)
    requires Chained(s) && k <= |s.log|
    ensures Replay(EndAt(s.log, k), s.total, Sizes(s.log)[k..])
         == seq(|s.log| - k, i requires 0 <= i < |s.log| - k => ReplyAt(s.log[k + i].start, s.total))
    decreases |s.log| - k
  {
    if k < |s.log| {
      assert EntryOk(s, k);
      ReplayFollowsLog(s, k + 1);
      var rest := Sizes(s.log)[k..];
      assert rest[0] == s.log[k].size && rest[1..] == Sizes(s.log)[k + 1..];
      assert EndAt(s.log, k + 1) == NextOffset(EndAt(s.log, k), rest[0]);
    }
  }

  /** Every answer is the one a sequential allocator gives when the requests are replayed in the
      order of their winning compare-and-swaps, and that order respects real time: a call that
      returned before another was invoked comes first. No bound on the sizes is needed. */
  lemma Linearizable(total: Word, threads: nat, run: seq<Action>)
    ensures
      var s := Exec(Fresh(total, threads), run);
      var replayed := Replay(HEADER_SIZE, total, Sizes(s.log));
      && |replayed| == |s.log|
      && (forall e :: e in s.replies ==> e < |s.log| && s.replies[e].reply == replayed[e])
      && (forall a, b :: a in s.replies && 0 <= b < |s.log| && s.replies[a].at < s.log[b].invoked ==> a < b)
  {
    var s := Exec(Fresh(total, threads), run);
    FreshInv(total, threads);
    ExecKeepsInv(Fresh(total, threads), run);
    ExecKeepsTotal(Fresh(total, threads), run);
    ReplayFollowsLog(s, 0);
    assert Sizes(s.log)[0..] == Sizes(s.log);
    forall e | e in s.replies
      ensures e < |s.log| && s.replies[e].reply == ReplyAt(s.log[e].start, total)
    {
      assert AnswerOk(s, e);
    }
    forall a, b | a in s.replies && 0 <= b < |s.log| && s.replies[a].at < s.log[b].invoked
      ensures a < b
    {
      assert AnswerOk(s, a) && EntryOk(s, b);
    }
  }

  lemma {:induction false} ExecKeepsTotal(s: State, run: seq<Action>)
    ensures Exec(s, run).total == s.total && |Exec(s, run).threads| == |s.threads|
    decreases |run|
  {
    if run != [] { ExecKeepsTotal(Step(s, run[0]), run[1..]); }
  }

  // ---- geometry of the reservations ----

  /** The header and the first `n` reservations, each with its rounded size. */
  function Demand(log: seq<Entry>, n: nat): nat
    requires n <= |log|
  {
    if n == 0 then HEADER_SIZE else Demand(log, n - 1) + RoundUp(log[n - 1].size)
  }

  lemma {:induction false} DemandGrows(log: seq<Entry>, m: nat, n: nat)
    requires m <= n <= |log|
    ensures Demand(log, m) <= Demand(log, n)
    decreases n
  {
    if m < n { DemandGrows(log, m, n - 1); }
  }

  ghost predicate HoldsRequest(e: Entry) { e.start + e.size <= e.end }

  /** As long as every reservation holds its request, the offset is the demand, and it fits. */
  lemma {:induction false} HeldDemandFits(s: State, n: nat)
    requires Chained(s) && n <= |s.log|
    requires forall i :: 0 <= i < n ==> HoldsRequest(s.log[i])
    ensures EndAt(s.log, n) == Demand(s.log, n) && EndAt(s.log, n) % ALIGN == 0
    decreases n
  {
    if n > 0 {
      HeldDemandFits(s, n - 1);
      assert EntryOk(s, n - 1) && HoldsRequest(s.log[n - 1]);
      DemandGrows(s.log, 0, n - 1);
      var e := s.log[n - 1];
      HoldsRequestExactly(e.start, e.size);
      ReservationHoldsRequest(e.start, e.size);
    }
  }

  lemma {:induction false} FittingDemandIsHeld(s: State, n: nat)
    requires Chained(s) && n <= |s.log| && Demand(s.log, n) < WORD
    ensures forall i :: 0 <= i < n ==> HoldsRequest(s.log[i])
    decreases n
  {
    if n > 0 {
      FittingDemandIsHeld(s, n - 1);
      HeldDemandFits(s, n - 1);
      assert EntryOk(s, n - 1);
      DemandGrows(s.log, 0, n - 1);
      ReservationHoldsRequest(s.log[n - 1].start, s.log[n - 1].size);
    }
  }

  /** The reservations made so far, rounded up, fit behind the header in one machine word. */
  ghost predicate NoWrap(s: State) { Demand(s.log, |s.log|) < WORD }

  /** In every run, all reservations hold their requests exactly when the header and the rounded sizes
      of the reservations made fit one machine word. */
  lemma RequestsHeldExactly(total: Word, threads: nat, run: seq<Action>)
    ensures
      var s := Exec(Fresh(total, threads), run);
      (forall i :: 0 <= i < |s.log| ==> HoldsRequest(s.log[i])) <==> NoWrap(s)
  {
    var s := Exec(Fresh(total, threads), run);
    FreshInv(total, threads);
    ExecKeepsInv(Fresh(total, threads), run);
    if forall i :: 0 <= i < |s.log| ==> HoldsRequest(s.log[i]) {
      HeldDemandFits(s, |s.log|);
    }
    if NoWrap(s) {
      FittingDemandIsHeld(s, |s.log|);
    }
  }

  ghost predicate Placed(e: Entry) {
    HEADER_SIZE <= e.start && e.start % ALIGN == 0 && e.end == e.start + RoundUp(e.size)
  }

  /** Reservations are aligned, behind the header, and exactly as long as the rounded request. */
  ghost predicate Geometry(s: State) {
    && (forall n :: 0 <= n <= |s.log| ==> EndAt(s.log, n) == Demand(s.log, n))
    && (forall i :: 0 <= i < |s.log| ==> Placed(s.log[i]))
  }

  lemma ChainHasGeometry(s: State)
    requires Chained(s) && NoWrap(s)
    ensures Geometry(s)
  {
    FittingDemandIsHeld(s, |s.log|);
    forall n | 0 <= n <= |s.log| ensures EndAt(s.log, n) == Demand(s.log, n) {
      HeldDemandFits(s, n);
    }
    forall i | 0 <= i < |s.log| ensures Placed(s.log[i]) {
      assert EntryOk(s, i);
      HeldDemandFits(s, i);
      HeldDemandFits(s, i + 1);
      DemandGrows(s.log, 0, i);
    }
  }

  /** A reachable state whose reservations did not wrap. */
  lemma Reached(total: Word, threads: nat, run: seq<Action>)
    requires NoWrap(Exec(Fresh(total, threads), run))
    ensures
      var s := Exec(Fresh(total, threads), run);
      Inv(s) && Geometry(s) && s.total == total && |s.threads| == threads
  {
    var s := Fresh(total, threads);
    FreshInv(total, threads);
    ExecKeepsInv(s, run);
    ExecKeepsTotal(s, run);
    ChainHasGeometry(Exec(s, run));
  }

  lemma {:induction false} LaterStartsHigher(s: State, i: nat, j: nat)
    requires Chained(s) && Geometry(s) && i < j <= |s.log|
    ensures s.log[i].end <= EndAt(s.log, j)
    decreases j
  {
    if j > i + 1 {
      LaterStartsHigher(s, i, j - 1);
      assert EntryOk(s, j - 1) && Placed(s.log[j - 1]);
    }
  }

  lemma {:induction false} SomeReservationCovers(s: State, x: nat, n: nat) returns (i: nat)
    requires Chained(s) && n <= |s.log| && HEADER_SIZE <= x < EndAt(s.log, n)
    ensures i < n && s.log[i].start <= x < s.log[i].end
  {
    assert EntryOk(s, n - 1);
    if s.log[n - 1].start <= x {
      i := n - 1;
    } else {
      i := SomeReservationCovers(s, x, n - 1);
    }
  }

  /** Byte `x` of the file belongs to some reservation. */
  ghost predicate Covered(log: seq<Entry>, x: nat) {
    exists i :: 0 <= i < |log| && log[i].start <= x < log[i].end
  }

  /** The reserved ranges tile `[header, current)`: each byte of it lies in exactly one range, ranges
      are aligned, follow one another in the order of the winning compare-and-swaps, hold their
      request and waste less than one alignment unit. */
  ghost predicate Tiled(s: State) {
    && (forall i, j :: 0 <= i < j < |s.log| ==> s.log[i].end <= s.log[j].start)
    && (forall x :: HEADER_SIZE <= x < s.current ==> Covered(s.log, x))
    && (forall i :: 0 <= i < |s.log| ==>
          && HEADER_SIZE <= s.log[i].start && s.log[i].end <= s.current && s.log[i].start % ALIGN == 0
          && s.log[i].start + s.log[i].size <= s.log[i].end < s.log[i].start + s.log[i].size + ALIGN)
  }

  lemma GeometryTiles(s: State)
    requires Chained(s) && Geometry(s)
    ensures Tiled(s)
  {
    forall i, j | 0 <= i < j < |s.log| ensures s.log[i].end <= s.log[j].start {
      LaterStartsHigher(s, i, j);
      assert EntryOk(s, j);
    }
    forall x | HEADER_SIZE <= x < s.current ensures Covered(s.log, x) {
      var i := SomeReservationCovers(s, x, |s.log|);
    }
    forall i | 0 <= i < |s.log| ensures s.log[i].end <= s.current && Placed(s.log[i]) {
      LaterStartsHigher(s, i, |s.log|);
    }
  }

  /** In every interleaving, over all sessions, the reserved ranges are tiled exactly when the
      reservations did not wrap. */
  lemma ReservationsTile(total: Word, threads: nat, run: seq<Action>)
    ensures
      var s := Exec(Fresh(total, threads), run);
      Tiled(s) <==> NoWrap(s)
  {
    var s := Exec(Fresh(total, threads), run);
    RequestsHeldExactly(total, threads, run);
    if NoWrap(s) {
      Reached(total, threads, run);
      GeometryTiles(s);
    }
    if Tiled(s) {
      assert forall i :: 0 <= i < |s.log| ==> HoldsRequest(s.log[i]);
    }
  }

  /** Two answered calls never share a byte, whichever threads and sessions made them. */
  lemma BlocksDisjoint(total: Word, threads: nat, run: seq<Action>, a: nat, b: nat)
    requires NoWrap(Exec(Fresh(total, threads), run))
    requires
      var s := Exec(Fresh(total, threads), run);
      a in s.replies && b in s.replies && a != b && s.replies[a].reply.Block? && s.replies[b].reply.Block?
    ensures
      var s := Exec(Fresh(total, threads), run);
      var (p, q) := (s.replies[a].reply.offset, s.replies[b].reply.offset);
      && a < |s.log| && b < |s.log| && p % ALIGN == 0 && q % ALIGN == 0
      && (p + s.log[a].size <= q || q + s.log[b].size <= p)
  {
    var s := Exec(Fresh(total, threads), run);
    Reached(total, threads, run);
    ReservationsTile(total, threads, run);
    assert AnswerOk(s, a) && AnswerOk(s, b);
  }

  /** A block that was handed out starts where its reservation does. While nothing wrapped that is behind
      the header and all earlier reservations, and its bytes lie in the reserved range. */
  lemma BlockIsItsReservation(total: Word, threads: nat, run: seq<Action>, e: nat)
    requires
      var s := Exec(Fresh(total, threads), run);
      e in s.replies && s.replies[e].reply.Block?
    ensures
      var s := Exec(Fresh(total, threads), run);
      var offset := s.replies[e].reply.offset;
      && e < |s.log| && offset == s.log[e].start <= total
      && (NoWrap(s) ==>
            && HEADER_SIZE <= offset == Demand(s.log, e)
            && offset + s.log[e].size <= s.log[e].end)
  {
    var s := Exec(Fresh(total, threads), run);
    FreshInv(total, threads);
    ExecKeepsInv(Fresh(total, threads), run);
    ExecKeepsTotal(Fresh(total, threads), run);
    assert AnswerOk(s, e) && EntryOk(s, e);
    if NoWrap(s) {
      Reached(total, threads, run);
      ReservationsTile(total, threads, run);
      assert Placed(s.log[e]) && EndAt(s.log, e) == Demand(s.log, e);
    }
  }

  /** A compare-and-swap wins exactly when nothing advanced the offset since this thread loaded it:
      an equal value is never an old value come back. */
  lemma NoAba(total: Word, threads: nat, run: seq<Action>, t: nat)
    requires NoWrap(Exec(Fresh(total, threads), run))
    requires t < threads == |Exec(Fresh(total, threads), run).threads|
    requires Exec(Fresh(total, threads), run).threads[t].Loaded?
    ensures
      var s := Exec(Fresh(total, threads), run);
      s.threads[t].offset == s.current <==>
        forall i :: s.threads[t].seen <= i < |s.log| ==> s.log[i].start == s.log[i].end
  {
    var s := Exec(Fresh(total, threads), run);
    Reached(total, threads, run);
    assert ThreadOk(s, t);
    var seen := s.threads[t].seen;
    if s.threads[t].offset == s.current {
      forall i | seen <= i < |s.log| ensures s.log[i].start == s.log[i].end {
        assert EntryOk(s, i) && Placed(s.log[i]);
        if seen < i { LaterStartsHigher(s, seen, i); }
        assert EntryOk(s, seen) && Placed(s.log[seen]);
        LaterStartsHigher(s, i, |s.log|);
      }
    } else if forall i :: seen <= i < |s.log| ==> s.log[i].start == s.log[i].end {
      IdleStretch(s, seen, |s.log|);
      assert false;
    }
  }

  lemma {:induction false} IdleStretch(s: State, i: nat, j: nat)
    requires Chained(s) && i <= j <= |s.log|
    requires forall k :: i <= k < j ==> s.log[k].start == s.log[k].end
    ensures EndAt(s.log, j) == EndAt(s.log, i)
    decreases j
  {
    if i < j {
      IdleStretch(s, i, j - 1);
      assert EntryOk(s, j - 1);
    }
  }

  // ---- exhaustion ----

  /** In reservation order every success precedes every null; a success that another success follows
      ends inside the file, and a reservation ends inside exactly if the next one succeeds. */
  lemma ExhaustionIsPermanent(total: Word, threads: nat, run: seq<Action>, a: nat, b: nat)
    requires NoWrap(Exec(Fresh(total, threads), run))
    requires a < b < |Exec(Fresh(total, threads), run).log|
    ensures
      var s := Exec(Fresh(total, threads), run);
      && (ReplyAt(s.log[a].start, total).Exhausted? ==> ReplyAt(s.log[b].start, total).Exhausted?)
      && (ReplyAt(s.log[b].start, total).Block? ==> s.log[a].end <= total)
      && (b == a + 1 ==> (ReplyAt(s.log[b].start, total).Block? <==> s.log[a].end <= total))
  {
    var s := Exec(Fresh(total, threads), run);
    Reached(total, threads, run);
    LaterStartsHigher(s, a, b);
    assert EntryOk(s, b) && Placed(s.log[a]);
  }

  /** Once any call has been answered null, every call that is invoked later is answered null. */
  lemma NullThenAlwaysNull(total: Word, threads: nat, run: seq<Action>, a: nat, b: nat)
    requires NoWrap(Exec(Fresh(total, threads), run))
    requires
      var s := Exec(Fresh(total, threads), run);
      && a in s.replies && s.replies[a].reply.Exhausted?
      && b in s.replies && b < |s.log| && s.log[b].invoked > s.replies[a].at
    ensures Exec(Fresh(total, threads), run).replies[b].reply.Exhausted?
  {
    var s := Exec(Fresh(total, threads), run);
    Linearizable(total, threads, run);
    Reached(total, threads, run);
    ExhaustionIsPermanent(total, threads, run, a, b);
    assert AnswerOk(s, a) && AnswerOk(s, b);
  }

  /** Reservation `e` is answered with a block whose reserved range, padding included, ends behind
      the end of the file. */
  ghost predicate Overruns(s: State, e: nat) {
    e < |s.log| && ReplyAt(s.log[e].start, s.total).Block? && s.log[e].end > s.total
  }

  /** Reservation `e` is answered with a block of which the caller's own bytes leave the file. */
  ghost predicate Spills(s: State, e: nat) {
    e < |s.log| && ReplyAt(s.log[e].start, s.total).Block? && s.log[e].start + s.log[e].size > s.total
  }

  /** Between an offset inside the file and a later one outside lies the reservation that crosses. */
  lemma {:induction false} SomeReservationCrosses(s: State, n: nat) returns (e: nat)
    requires Chained(s) && n <= |s.log| && HEADER_SIZE <= s.total < EndAt(s.log, n)
    ensures e < n && s.log[e].start <= s.total < s.log[e].end
  {
    assert EntryOk(s, n - 1);
    if s.log[n - 1].start <= s.total {
      e := n - 1;
    } else {
      e := SomeReservationCrosses(s, n - 1);
    }
  }

  /** Exhaustion always means an overrun: behind every null lies an earlier success whose reserved
      range ends outside the file. No bound on the sizes is needed. */
  lemma NullMeansOverrun(total: Word, threads: nat, run: seq<Action>, b: nat)
    requires total >= HEADER_SIZE && b < |Exec(Fresh(total, threads), run).log|
    requires ReplyAt(Exec(Fresh(total, threads), run).log[b].start, total).Exhausted?
    ensures exists e: nat :: e < b && Overruns(Exec(Fresh(total, threads), run), e)
  {
    var s := Exec(Fresh(total, threads), run);
    FreshInv(total, threads);
    ExecKeepsInv(Fresh(total, threads), run);
    ExecKeepsTotal(Fresh(total, threads), run);
    assert EntryOk(s, b);
    var e := SomeReservationCrosses(s, b);
    assert Overruns(s, e);
  }

  /** What the requests say of reservation `e`: its range leaves the file exactly if the demand passes
      the end of the file there, and the caller's bytes exactly if the request itself does. */
  lemma LeavesFileExactly(total: Word, threads: nat, run: seq<Action>, e: nat)
    requires NoWrap(Exec(Fresh(total, threads), run)) && e < |Exec(Fresh(total, threads), run).log|
    ensures
      var s := Exec(Fresh(total, threads), run);
      && (Overruns(s, e) <==> Demand(s.log, e) <= total < Demand(s.log, e + 1))
      && (Spills(s, e) <==> Demand(s.log, e) <= total < Demand(s.log, e) + s.log[e].size)
      && (total % ALIGN == 0 ==> (Spills(s, e) <==> Overruns(s, e)))
  {
    var s := Exec(Fresh(total, threads), run);
    Reached(total, threads, run);
    assert EntryOk(s, e) && Placed(s.log[e]);
    if total % ALIGN == 0 { PaddingStaysBelow(s.log[e].start, s.log[e].size, total); }
  }

  /** Between two multiples of the alignment the padding makes no difference. */
  lemma PaddingStaysBelow(start: nat, size: nat, total: nat)
    requires start % ALIGN == 0 && total % ALIGN == 0
    ensures start + size > total <==> start + RoundUp(size) > total
  {
  }

  /** Some block's reserved range ends behind the end of the file exactly when the demand has passed
      that end; a file shorter than its header hands out no block. */
  lemma OverrunExactly(total: Word, threads: nat, run: seq<Action>)
    requires NoWrap(Exec(Fresh(total, threads), run))
    ensures
      var s := Exec(Fresh(total, threads), run);
      (exists e: nat :: Overruns(s, e)) <==> HEADER_SIZE <= total < Demand(s.log, |s.log|)
  {
    var s := Exec(Fresh(total, threads), run);
    Reached(total, threads, run);
    if e: nat :| Overruns(s, e) {
      LaterStartsHigher(s, e, |s.log|);
      assert Placed(s.log[e]);
    }
    if HEADER_SIZE <= total < Demand(s.log, |s.log|) {
      var e := SomeReservationCrosses(s, |s.log|);
      assert Overruns(s, e);
    }
  }

  // ---- when a null means that bytes were handed out outside the file ----

  /** In every run, before every null comes a block of which the caller's own bytes leave the file. */
  ghost predicate NullsFollowSpills(total: Word) {
    forall threads: nat, run: seq<Action>, b: nat :: NullAt(Exec(Fresh(total, threads), run), b) ==>
      exists e: nat :: e < b && Spills(Exec(Fresh(total, threads), run), e)
  }

  ghost predicate NullAt(s: State, b: nat) {
    b < |s.log| && ReplyAt(s.log[b].start, s.total).Exhausted?
  }

  lemma {:induction false} AllStartsAligned(s: State, n: nat)
    requires Chained(s) && n <= |s.log|
    ensures EndAt(s.log, n) % ALIGN == 0
  {
    if n > 0 {
      assert EntryOk(s, n - 1);
      NextOffsetAligned(s.log[n - 1].start, s.log[n - 1].size);
    }
  }

  /** A reservation across an aligned end of the file takes some of its caller's bytes with it. */
  lemma CrossingSpills(s: State, e: nat)
    requires Chained(s) && e < |s.log| && s.total % ALIGN == 0
    requires s.log[e].start <= s.total < s.log[e].end
    ensures Spills(s, e)
  {
    assert EntryOk(s, e);
    AllStartsAligned(s, e);
    ForwardReservation(s.log[e].start, s.log[e].size);
    PaddingStaysBelow(s.log[e].start, s.log[e].size, s.total);
  }

  /** No aligned offset lies behind a total so near the top of the word. */
  lemma NoNullNearTheTop(s: State, b: nat)
    requires Chained(s) && RoundUp(s.total) >= WORD
    ensures !NullAt(s, b)
  {
    if b < |s.log| {
      assert EntryOk(s, b);
      AllStartsAligned(s, b);
      RoundUpBounds(s.total);
    }
  }

  lemma NullFollowsSpill(total: Word, threads: nat, run: seq<Action>, b: nat)
    requires HEADER_SIZE <= total && (total % ALIGN == 0 || RoundUp(total) >= WORD)
    requires NullAt(Exec(Fresh(total, threads), run), b)
    ensures exists e: nat :: e < b && Spills(Exec(Fresh(total, threads), run), e)
  {
    var s := Exec(Fresh(total, threads), run);
    FreshInv(total, threads);
    ExecKeepsInv(Fresh(total, threads), run);
    ExecKeepsTotal(Fresh(total, threads), run);
    if RoundUp(total) >= WORD { NoNullNearTheTop(s, b); }
    assert EntryOk(s, b);
    var e := SomeReservationCrosses(s, b);
    CrossingSpills(s, e);
  }

  /** Two threads, each up to its winning compare-and-swap. */
  function TwoCalls(size: Word): seq<Action> {
    [Invoke(0, size, ALIGN), Advance(0), Advance(0), Invoke(1, 0, ALIGN), Advance(1), Advance(1)]
  }

  lemma TwoCallsLog(total: Word, size: Word)
    ensures
      var s := Exec(Fresh(total, 2), TwoCalls(size));
      && |s.log| == 2 && s.total == total
      && s.log[0].start == HEADER_SIZE && s.log[0].size == size && s.log[1].start == NextOffset(HEADER_SIZE, size)
  {
    var run := TwoCalls(size);
    var s1 := Step(Fresh(total, 2), run[0]);
    var s2 := Step(s1, run[1]);
    var s3 := Step(s2, run[2]);
    var s4 := Step(s3, run[3]);
    var s5 := Step(s4, run[4]);
    var s6 := Step(s5, run[5]);
    assert Exec(s6, run[6..]) == s6;
    assert Exec(s5, run[5..]) == Exec(s6, run[6..]);
    assert Exec(s4, run[4..]) == Exec(s5, run[5..]);
    assert Exec(s3, run[3..]) == Exec(s4, run[4..]);
    assert Exec(s2, run[2..]) == Exec(s3, run[3..]);
    assert Exec(s1, run[1..]) == Exec(s2, run[2..]);
  }

  /** Where the end of the file is not aligned, a request for exactly the rest of it leaves nothing but
      padding behind that end, and the next call is answered null. */
  lemma PaddingAloneExhausts(total: Word)
    requires total < HEADER_SIZE || (total % ALIGN != 0 && RoundUp(total) < WORD)
    ensures !NullsFollowSpills(total)
  {
    var size: Word := if total < HEADER_SIZE then 0 else total - HEADER_SIZE;
    var s := Exec(Fresh(total, 2), TwoCalls(size));
    TwoCallsLog(total, size);
    if total < HEADER_SIZE {
      assert NullAt(s, 0);
    } else {
      NextOffsetExact(HEADER_SIZE, size);
      assert NullAt(s, 1);
      assert !Spills(s, 0);
    }
  }

  /** That a null means bytes handed out outside the file is true of exactly these files: those with
      an aligned end behind the header, and those so near the top of the word that no call is ever
      answered null. */
  lemma NullsFollowSpillsExactly(total: Word)
    ensures NullsFollowSpills(total) <==> total >= HEADER_SIZE && (total % ALIGN == 0 || RoundUp(total) >= WORD)
  {
    if total >= HEADER_SIZE && (total % ALIGN == 0 || RoundUp(total) >= WORD) {
      forall threads: nat, run: seq<Action>, b: nat | NullAt(Exec(Fresh(total, threads), run), b)
        ensures exists e: nat :: e < b && Spills(Exec(Fresh(total, threads), run), e)
      {
        NullFollowsSpill(total, threads, run, b);
      }
    } else {
      PaddingAloneExhausts(total);
    }
  }

  /** An example is the repository's own boundary test: a 1024-byte file takes twenty-one 48-byte
      requests before it answers null, and the twenty-first ends at 1032. */
  lemma LastBlockMayOverrun()
    ensures
      var replies := Replay(HEADER_SIZE, 1024, seq(22, _ => 48));
      |replies| == 22 && replies[20] == Block(984) && 984 + 48 > 1024 && replies[21] == Exhausted
  {
    EqualRequests(1024, 22, 0, 20);
    EqualRequests(1024, 22, 0, 21);
  }

  lemma {:induction false} EqualRequests(total: Word, n: nat, k: nat, i: nat)
    requires k <= i < n <= 100
    ensures
      var replies := Replay(HEADER_SIZE + 48 * k, total, seq(n - k, _ => 48));
      |replies| == n - k && replies[i - k] == ReplyAt(HEADER_SIZE + 48 * i, total)
    decreases n - k
  {
    var sizes: seq<Word> := seq(n - k, _ => 48);
    assert sizes[1..] == seq(n - k - 1, _ => 48);
    ReservationHoldsRequest(HEADER_SIZE + 48 * k, 48);
    if k < i {
      EqualRequests(total, n, k + 1, i);
    } else {
      ReplayLength(HEADER_SIZE + 48 * k, total, sizes);
    }
  }

  lemma {:induction false} ReplayLength(current: Word, total: nat, sizes: seq<Word>)
    ensures |Replay(current, total, sizes)| == |sizes|
    decreases |sizes|
  {
    if sizes != [] { ReplayLength(NextOffset(current, sizes[0]), total, sizes[1..]); }
  }

  // ---- the allocation counter ----

  /** Threads whose reservation succeeded and is not counted yet. */
  function Uncounted(total: nat): Thread -> nat {
    (t: Thread) => match t
      case Won(offset, _) => if offset <= total then 1 else 0
      case Counting(_, _) => 1
      case _ => 0
  }

  ghost predicate Tallied(s: State) {
    && s.session <= |s.log|
    && s.count + Sum(s.threads, Uncounted(s.total)) == Successes(s.log[s.session..], s.total)
  }

  lemma {:induction false} OneMoreReservation(log: seq<Entry>, e: Entry, k: nat, total: nat)
    requires k <= |log|
    ensures Successes((log + [e])[k..], total) == Successes(log[k..], total) + (if e.start <= total then 1 else 0)
  {
    var mine := (log + [e])[k..];
    assert mine == log[k..] + [e];
    assert mine[..|mine| - 1] == log[k..];
  }

  lemma ProceedKeepsTally(s: State, t: nat)
    requires Inv(s) && Tallied(s) && t < |s.threads|
    ensures Tallied(Proceed(s, t))
  {
    var s' := Proceed(s, t);
    assert ThreadOk(s, t);
    SumUpdate(s.threads, t, s'.threads[t], Uncounted(s.total));
    if s.threads[t].Loaded? && s.threads[t].offset == s.current {
      OneMoreReservation(s.log, s'.log[|s.log|], s.session, s.total);
    }
  }

  lemma StepKeepsTally(s: State, a: Action)
    requires Inv(s) && Tallied(s)
    ensures Tallied(Step(s, a))
  {
    var f := Uncounted(s.total);
    match a
    case Reload => if AllIdle(s) { SumZero(s.threads, f); }
    case Invoke(t, size, _) => if t < |s.threads| { SumUpdate(s.threads, t, Trying(size, s.clock), f); }
    case Advance(t) => if t < |s.threads| { ProceedKeepsTally(s, t); }
  }

  lemma {:induction false} ExecKeepsTally(s: State, run: seq<Action>)
    requires Inv(s) && Tallied(s)
    ensures Tallied(Exec(s, run))
    decreases |run|
  {
    if run != [] {
      StepKeepsInv(s, run[0]);
      StepKeepsTally(s, run[0]);
      ExecKeepsTally(Step(s, run[0]), run[1..]);
    }
  }

  /** At any moment the counter plus the threads between a successful check and their increment is
      the number of successful reservations of this session; when no call is running, every
      reservation has been answered and `num_allocated` is exactly the session's successes. */
  lemma CounterCountsSession(total: Word, threads: nat, run: seq<Action>)
    ensures
      var s := Exec(Fresh(total, threads), run);
      && Tallied(s)
      && (AllIdle(s) ==>
            && NumAllocated(s) == Wrap(Successes(s.log[s.session..], total))
            && forall e :: 0 <= e < |s.log| ==> e in s.replies)
  {
    var s0 := Fresh(total, threads);
    FreshInv(total, threads);
    SumZero(s0.threads, Uncounted(total));
    ExecKeepsTally(s0, run);
    ExecKeepsInv(s0, run);
    ExecKeepsTotal(s0, run);
    var s := Exec(s0, run);
    if AllIdle(s) {
      SumZero(s.threads, Uncounted(total));
      forall e | 0 <= e < |s.log| ensures e in s.replies { assert AnswerOk(s, e); }
    }
  }

  // ---- progress ----

  /** Threads whose loaded offset is no longer the shared one. */
  function Stale(current: Word): Thread -> nat {
    (t: Thread) => if t.Loaded? && t.offset != current then 1 else 0
  }

  ghost predicate Bounded(s: State) {
    |s.threads| > 0 ==> s.failed + Sum(s.threads, Stale(s.current)) <= (|s.threads| - 1) * s.advanced
  }

  /** The moving thread itself is not stale after its win. */
  lemma WinKeepsBound(s: State, t: nat)
    requires Bounded(s) && t < |s.threads| && s.threads[t].Loaded? && s.threads[t].offset == s.current
    ensures Bounded(Swap(s, t))
  {
    var s' := Swap(s, t);
    var f := Stale(s'.current);
    if s'.current != s.current {
      OthersAtMost(s'.threads, t, f);
      OneMoreTime(|s.threads| - 1, s.advanced);
    } else {
      SumUpdate(s.threads, t, s'.threads[t], f);
    }
  }

  lemma OneMoreTime(k: int, n: int)
    ensures k * (n + 1) == k * n + k
  {
  }

  lemma OthersAtMost(ts: seq<Thread>, t: nat, f: Thread -> nat)
    requires t < |ts| && f(ts[t]) == 0 && f(Idle) == 0
    requires forall x :: f(x) <= 1
    ensures Sum(ts, f) <= |ts| - 1
  {
    var rest := ts[..t] + ts[t + 1..];
    SumAtMost(ts[..t], f);
    SumAtMost(ts[t + 1..], f);
    assert ts == ts[..t] + ([ts[t]] + ts[t + 1..]);
    SumAppend(ts[..t], [ts[t]] + ts[t + 1..], f);
    assert ([ts[t]] + ts[t + 1..])[1..] == ts[t + 1..];
  }

  lemma {:induction false} SumAppend(a: seq<Thread>, b: seq<Thread>, f: Thread -> nat)
    ensures Sum(a + b, f) == Sum(a, f) + Sum(b, f)
  {
    if a == [] {
      assert a + b == b;
    } else {
      assert (a + b)[1..] == a[1..] + b;
      SumAppend(a[1..], b, f);
    }
  }

  lemma StepKeepsBound(s: State, a: Action)
    requires Bounded(s)
    ensures Bounded(Step(s, a))
  {
    var s' := Step(s, a);
    if !a.Reload? && a.t < |s.threads| && s' != s {
      if a.Advance? && s.threads[a.t].Loaded? && s.threads[a.t].offset == s.current {
        WinKeepsBound(s, a.t);
      } else {
        SumUpdate(s.threads, a.t, s'.threads[a.t], Stale(s.current));
      }
    }
  }

  lemma {:induction false} ExecKeepsBound(s: State, run: seq<Action>)
    requires Bounded(s)
    ensures Bounded(Exec(s, run))
    decreases |run|
  {
    if run != [] {
      StepKeepsBound(s, run[0]);
      ExecKeepsBound(Step(s, run[0]), run[1..]);
    }
  }

  /** Lock-freedom with a bound: in every run of `threads` threads, the compare-and-swaps that failed
      are at most `threads - 1` times those that moved the offset. */
  lemma FailuresBounded(total: Word, threads: nat, run: seq<Action>)
    requires threads > 0
    ensures
      var s := Exec(Fresh(total, threads), run);
      s.failed <= (threads - 1) * s.advanced
  {
    var s0 := Fresh(total, threads);
    SumZero(s0.threads, Stale(s0.current));
    ExecKeepsBound(s0, run);
    ExecKeepsTotal(s0, run);
  }
}
