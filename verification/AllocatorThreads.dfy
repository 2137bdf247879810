/** `MappedRegion::allocate` run by any number of threads on one mapping. One action is one atomic
    access to shared memory; a run is any list of actions, and an action that is not enabled leaves
    the state alone, so the lists are exactly the interleavings. */
module AllocatorThreads {
  import opened Allocator

  /** Where a thread stands in `allocate`: outside, before the load, holding a loaded offset, past a
      winning compare-and-swap, or past the exhaustion check but not yet counted. `seen` is how many
      reservations the loaded offset reflects; `entry` is the thread's own reservation. */
  datatype Thread =
    | Idle
    | Trying(size: Word, invoked: nat)
    | Loaded(size: Word, invoked: nat, offset: Word, seen: nat)
    | Won(offset: Word, entry: nat)
    | Counting(offset: Word, entry: nat)

  /** One winning compare-and-swap: who, for how much, what range, and when. */
  datatype Entry = Entry(thread: nat, size: Word, start: Word, end: Word, invoked: nat, at: nat)

  datatype Return = Return(reply: Reply, at: nat)

  /** `log` lists the winning compare-and-swaps in order and survives a reload, as the file does;
      `session` is its length when the current region object was made. */
  datatype State = State(
    current: Word, total: Word, count: nat, threads: seq<Thread>,
    log: seq<Entry>, replies: map<nat, Return>, session: nat,
    failed: nat, advanced: nat, clock: nat)

  /** A thread enters `allocate`, a thread makes its next shared access, or the region is dropped
      and loaded again (which needs every thread to be outside). */
  datatype Action = Invoke(t: nat, size: Word, align: Word) | Advance(t: nat) | Reload

  function Fresh(total: Word, threads: nat): State {
    State(HEADER_SIZE, total, 0, seq(threads, _ => Idle), [], map[], 0, 0, 0, 0)
  }

  predicate AllIdle(s: State) {
    forall i :: 0 <= i < |s.threads| ==> s.threads[i].Idle?
  }

  function Set(s: State, t: nat, th: Thread): State
    requires t < |s.threads|
  {
    s.(threads := s.threads[t := th], clock := s.clock + 1)
  }

  function Answer(s: State, entry: nat, reply: Reply): State {
    s.(replies := s.replies[entry := Return(reply, s.clock)])
  }

  function Swap(s: State, t: nat): State
    requires t < |s.threads| && s.threads[t].Loaded?
  {
    var th := s.threads[t];
    if s.current != th.offset then
      Set(s.(failed := s.failed + 1), t, Trying(th.size, th.invoked))
    else
      var next := NextOffset(th.offset, th.size);
      var e := Entry(t, th.size, th.offset, next, th.invoked, s.clock);
      Set(s.(current := next, log := s.log + [e],
             advanced := s.advanced + (if next != th.offset then 1 else 0)),
          t, Won(th.offset, |s.log|))
  }

  function Proceed(s: State, t: nat): State
    requires t < |s.threads|
  {
    match s.threads[t]
    case Idle => s
    case Trying(size, invoked) => Set(s, t, Loaded(size, invoked, s.current, |s.log|))
    case Loaded(_, _, _, _) => Swap(s, t)
    case Won(offset, entry) =>
      if offset > s.total then Set(Answer(s, entry, Exhausted), t, Idle)
      else Set(s, t, Counting(offset, entry))
    case Counting(offset, entry) =>
      Set(Answer(s.(count := s.count + 1), entry, Block(offset)), t, Idle)
  }

  function Step(s: State, a: Action): State {
    match a
    case Reload =>
      if AllIdle(s) then s.(count := 0, session := |s.log|, clock := s.clock + 1) else s
    case Invoke(t, size, align) =>
      if t >= |s.threads| || !s.threads[t].Idle? || align != ALIGN then s
      else Set(s, t, Trying(size, s.clock))
    case Advance(t) =>
      if t < |s.threads| then Proceed(s, t) else s
  }

  function Exec(s: State, run: seq<Action>): State
    decreases |run|
  {
    if run == [] then s else Exec(Step(s, run[0]), run[1..])
  }

  /** What `num_allocated` reads: the counter wraps like any word. */
  function NumAllocated(s: State): Word { Wrap(s.count) }

  // ---- sums over the threads ----

  function Sum(ts: seq<Thread>, f: Thread -> nat): nat {
    if ts == [] then 0 else f(ts[0]) + Sum(ts[1..], f)
  }

  lemma {:induction false} SumUpdate(ts: seq<Thread>, i: nat, t: Thread, f: Thread -> nat)
    requires i < |ts|
    ensures Sum(ts[i := t], f) + f(ts[i]) == Sum(ts, f) + f(t)
  {
    if i == 0 {
      assert ts[i := t][1..] == ts[1..];
    } else {
      assert ts[i := t][1..] == ts[1..][i - 1 := t];
      SumUpdate(ts[1..], i - 1, t, f);
    }
  }

  lemma {:induction false} SumZero(ts: seq<Thread>, f: Thread -> nat)
    requires forall i :: 0 <= i < |ts| ==> f(ts[i]) == 0
    ensures Sum(ts, f) == 0
  {
    if ts != [] {
      assert forall i :: 0 <= i < |ts[1..]| ==> ts[1..][i] == ts[i + 1];
      SumZero(ts[1..], f);
    }
  }

  lemma {:induction false} SumAtMost(ts: seq<Thread>, f: Thread -> nat)
    requires forall t :: f(t) <= 1
    ensures Sum(ts, f) <= |ts|
  {
    if ts != [] { SumAtMost(ts[1..], f); }
  }

  // ---- the reservation log ----

  /** The offset that the first `n` reservations leave behind. */
  function EndAt(log: seq<Entry>, n: nat): Word
    requires n <= |log|
  {
    if n == 0 then HEADER_SIZE else log[n - 1].end
  }

  function Sizes(log: seq<Entry>): seq<Word> {
    seq(|log|, i requires 0 <= i < |log| => log[i].size)
  }

  /** How many reservations of `log` pass the exhaustion check. */
  function Successes(log: seq<Entry>, total: nat): nat {
    if log == [] then 0
    else Successes(log[..|log| - 1], total) + (if log[|log| - 1].start <= total then 1 else 0)
  }

  /** Reservation `i` starts where the one before it ended, and ends where the code put it. */
  ghost predicate EntryOk(s: State, i: nat)
    requires i < |s.log|
  {
    var e := s.log[i];
    && e.start == EndAt(s.log, i) && e.end == NextOffset(e.start, e.size)
    && e.thread < |s.threads| && e.invoked < e.at < s.clock
  }

  ghost predicate Chained(s: State) {
    && s.current == EndAt(s.log, |s.log|)
    && forall i :: 0 <= i < |s.log| ==> EntryOk(s, i)
  }

  ghost predicate Timed(s: State) {
    forall i, j :: 0 <= i < j < |s.log| ==> s.log[i].at < s.log[j].at
  }

  ghost predicate Owns(s: State, i: nat, offset: Word, entry: nat) {
    && s.session <= entry < |s.log| && entry !in s.replies
    && s.log[entry].thread == i && s.log[entry].start == offset
  }

  ghost predicate ThreadOk(s: State, i: nat)
    requires i < |s.threads|
  {
    match s.threads[i]
    case Idle => true
    case Trying(_, invoked) => invoked < s.clock
    case Loaded(_, invoked, offset, seen) =>
      invoked < s.clock && seen <= |s.log| && offset == EndAt(s.log, seen)
    case Won(offset, entry) => Owns(s, i, offset, entry)
    case Counting(offset, entry) => Owns(s, i, offset, entry) && offset <= s.total
  }

  /** Reservation `e` is either still held by its thread, or answered as its start demands. */
  ghost predicate AnswerOk(s: State, e: nat)
    requires e < |s.log|
  {
    if e in s.replies then
      && s.log[e].at < s.replies[e].at < s.clock
      && s.replies[e].reply == ReplyAt(s.log[e].start, s.total)
    else
      && s.log[e].thread < |s.threads|
      && var th := s.threads[s.log[e].thread];
         (th.Won? || th.Counting?) && th.entry == e
  }

  ghost predicate Answered(s: State) {
    && (forall e :: e in s.replies ==> e < |s.log|)
    && (forall e :: 0 <= e < |s.log| ==> AnswerOk(s, e))
  }

  ghost predicate ThreadsOk(s: State) {
    s.session <= |s.log| && forall i :: 0 <= i < |s.threads| ==> ThreadOk(s, i)
  }

  /** Holds in every reachable state, whatever sizes are asked for. */
  ghost predicate Inv(s: State) {
    Chained(s) && Timed(s) && Answered(s) && ThreadsOk(s)
  }

  lemma FreshInv(total: Word, threads: nat)
    ensures Inv(Fresh(total, threads))
  {
  }

  /** A thread that did not move is still consistent after another thread moved. */
  lemma OthersStayOk(s: State, s': State, i: nat)
    requires i < |s.threads| && ThreadOk(s, i)
    requires i < |s'.threads| && s'.threads[i] == s.threads[i]
    requires s.log <= s'.log && s'.clock >= s.clock && s'.session == s.session && s'.total == s.total
    requires forall e :: 0 <= e < |s.log| && e !in s.replies && s.log[e].thread == i ==> e !in s'.replies
    ensures ThreadOk(s', i)
  {
    match s.threads[i]
    case Loaded(_, _, _, seen) => assert EndAt(s'.log, seen) == EndAt(s.log, seen);
    case _ =>
  }

  /** A log entry stays consistent while the log only grows. */
  lemma EntryStaysOk(s: State, s': State, i: nat)
    requires i < |s.log| && EntryOk(s, i)
    requires s.log <= s'.log && s'.clock >= s.clock && |s'.threads| == |s.threads|
    ensures EntryOk(s', i)
  {
    assert EndAt(s'.log, i) == EndAt(s.log, i);
  }

  lemma ChainStays(s: State, s': State)
    requires Chained(s) && Timed(s)
    requires s'.log == s.log && s'.current == s.current && s'.clock >= s.clock && |s'.threads| == |s.threads|
    ensures Chained(s') && Timed(s')
  {
    forall i | 0 <= i < |s'.log| ensures EntryOk(s', i) {
      assert EntryOk(s, i);
      EntryStaysOk(s, s', i);
    }
  }

  /** A thread moved without touching the shared offset, the log or the replies. */
  lemma MoveKeepsInv(s: State, s': State, t: nat, th: Thread)
    requires Inv(s) && t < |s.threads|
    requires s'.log == s.log && s'.current == s.current && s'.clock >= s.clock && s'.replies == s.replies
    requires s'.session == s.session && s'.total == s.total && s'.threads == s.threads[t := th]
    requires if s.threads[t].Won? then th.Counting? && th.entry == s.threads[t].entry else !s.threads[t].Counting?
    requires ThreadOk(s', t)
    ensures Inv(s')
  {
    ChainStays(s, s');
    forall i | 0 <= i < |s'.threads| ensures ThreadOk(s', i) {
      assert ThreadOk(s, i);
      if i != t { OthersStayOk(s, s', i); }
    }
    forall e | 0 <= e < |s'.log| ensures AnswerOk(s', e) {
      assert AnswerOk(s, e);
    }
  }

  lemma WinKeepsLog(s: State, t: nat)
    requires Inv(s) && t < |s.threads| && s.threads[t].Loaded? && s.threads[t].offset == s.current
    ensures Chained(Swap(s, t)) && Timed(Swap(s, t))
  {
    var s' := Swap(s, t);
    assert ThreadOk(s, t);
    forall i | 0 <= i < |s'.log| ensures EntryOk(s', i) {
      if i < |s.log| {
        assert EntryOk(s, i);
        EntryStaysOk(s, s', i);
      } else {
        assert EndAt(s'.log, i) == EndAt(s.log, i);
      }
    }
    forall i, j | 0 <= i < j < |s'.log| ensures s'.log[i].at < s'.log[j].at {
      assert EntryOk(s, i);
    }
  }

  lemma WinKeepsThreads(s: State, t: nat)
    requires Inv(s) && t < |s.threads| && s.threads[t].Loaded? && s.threads[t].offset == s.current
    ensures ThreadsOk(Swap(s, t)) && Answered(Swap(s, t))
  {
    var s' := Swap(s, t);
    assert |s.log| !in s.replies;
    forall i | 0 <= i < |s'.threads| ensures ThreadOk(s', i) {
      assert ThreadOk(s, i);
      if i != t { OthersStayOk(s, s', i); }
    }
    forall e | 0 <= e < |s'.log| ensures AnswerOk(s', e) {
      if e < |s.log| { assert AnswerOk(s, e); }
    }
  }

  lemma AnswerKeepsInv(s: State, t: nat, count: nat)
    requires Inv(s) && t < |s.threads| && (s.threads[t].Won? || s.threads[t].Counting?)
    ensures
      var th := s.threads[t];
      Inv(Set(Answer(s.(count := count), th.entry, ReplyAt(th.offset, s.total)), t, Idle))
  {
    var th := s.threads[t];
    var s' := Set(Answer(s.(count := count), th.entry, ReplyAt(th.offset, s.total)), t, Idle);
    assert ThreadOk(s, t);
    ChainStays(s, s');
    forall i | 0 <= i < |s'.threads| ensures ThreadOk(s', i) {
      assert ThreadOk(s, i);
      if i != t { OthersStayOk(s, s', i); }
    }
    forall e | 0 <= e < |s'.log| ensures AnswerOk(s', e) {
      assert AnswerOk(s, e);
      assert EntryOk(s, e);
    }
  }

  lemma ProceedKeepsInv(s: State, t: nat)
    requires Inv(s) && t < |s.threads|
    ensures Inv(Proceed(s, t))
  {
    assert ThreadOk(s, t);
    var s' := Proceed(s, t);
    match s.threads[t]
    case Idle =>
    case Trying(_, _) => MoveKeepsInv(s, s', t, s'.threads[t]);
    case Loaded(_, _, offset, _) =>
      if offset == s.current {
        WinKeepsLog(s, t);
        WinKeepsThreads(s, t);
      } else {
        MoveKeepsInv(s, s', t, s'.threads[t]);
      }
    case Won(offset, _) =>
      if offset > s.total { AnswerKeepsInv(s, t, s.count); } else { MoveKeepsInv(s, s', t, s'.threads[t]); }
    case Counting(_, _) => AnswerKeepsInv(s, t, s.count + 1);
  }

  lemma StepKeepsInv(s: State, a: Action)
    requires Inv(s)
    ensures Inv(Step(s, a))
  {
    var s' := Step(s, a);
    match a
    case Reload =>
      if AllIdle(s) {
        ChainStays(s, s');
        assert forall i :: 0 <= i < |s'.threads| ==> ThreadOk(s', i);
        forall e | 0 <= e < |s'.log| ensures AnswerOk(s', e) { assert AnswerOk(s, e); }
      }
    case Invoke(t, _, _) =>
      if s' != s { MoveKeepsInv(s, s', t, s'.threads[t]); }
    case Advance(t) =>
      if t < |s.threads| { ProceedKeepsInv(s, t); }
  }

  lemma {:induction false} ExecKeepsInv(s: State, run: seq<Action>)
    requires Inv(s)
    ensures Inv(Exec(s, run))
    decreases |run|
  {
    if run != [] {
      StepKeepsInv(s, run[0]);
      ExecKeepsInv(Step(s, run[0]), run[1..]);
    }
  }
}
