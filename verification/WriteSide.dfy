/** The sending half of a connection: a queue of partly written buffers and a non-blocking socket. */
module WriteSide {
  import opened Protocol

  /** What one `write` reports: bytes accepted, not now, or an error. */
  datatype WriteResult = Ready(n: nat) | WouldBlock | WriteError

  /** A socket that never answers "ready, zero bytes". */
  ghost predicate Progress(answers: nat -> WriteResult) {
    forall i: nat :: answers(i).Ready? ==> answers(i).n > 0
  }

  ghost predicate ZerosFrom(answers: nat -> WriteResult, i: nat) {
    forall j: nat :: j >= i ==> answers(j) == Ready(0)
  }

  /** A socket that may answer "ready, zero bytes" again and again, but not for ever. These are the
      sockets on which the drain loop always ends. */
  ghost predicate Recovers(answers: nat -> WriteResult) {
    forall i: nat :: !ZerosFrom(answers, i)
  }

  function Blocked(): (f: nat -> WriteResult)
    ensures Recovers(f)
  {
    var f := (i: nat) => WouldBlock;
    assert forall i: nat :: !ZerosFrom(f, i) by {
      forall i: nat ensures !ZerosFrom(f, i) { assert f(i) != Ready(0); }
    }
    f
  }

  /** The answers a socket gives, one per write, for as long as it lives. */
  type Answers = f: nat -> WriteResult | Recovers(f) witness Blocked()

  /** `wire` is what the peer will see; `writes` counts the calls made on the socket. */
  datatype Outbound = Outbound(queue: seq<Bytes>, wire: Bytes, writes: nat)

  function Least(a: nat, b: nat): nat { if a < b then a else b }

  /** One turn of the drain loop on a non-empty queue: write the front buffer, advance it by the count
      accepted, and drop it once the count is its whole length. */
  function WriteFront(o: Outbound, answer: WriteResult): Outbound
    requires o.queue != []
  {
    match answer
    case Ready(k) =>
      var front := o.queue[0];
      var n := Least(k, |front|);
      Outbound(if n == |front| then o.queue[1..] else o.queue[0 := front[n..]], o.wire + front[..n], o.writes + 1)
    case _ => o.(writes := o.writes + 1)
  }

  function Pending(o: Outbound): Bytes { Flatten(o.queue) }

  function Work(o: Outbound): nat { |Pending(o)| + |o.queue| }

  lemma WriteFrontConserves(o: Outbound, answer: WriteResult)
    requires o.queue != []
    ensures WriteFront(o, answer).wire + Pending(WriteFront(o, answer)) == o.wire + Pending(o)
    ensures o.wire <= WriteFront(o, answer).wire
  {
  }

  /** A turn on which the socket was ready shrinks the work left, except exactly when it took nothing
      from a non-empty buffer; that turn changes nothing and the loop goes round again. */
  lemma ReadyTurnShrinksExactly(o: Outbound, k: nat)
    requires o.queue != []
    ensures Work(WriteFront(o, Ready(k))) < Work(o) <==> k > 0 || o.queue[0] == []
    ensures k == 0 && o.queue[0] != [] ==> WriteFront(o, Ready(k)) == o.(writes := o.writes + 1)
  {
  }

  // ---- what becomes of the queue ----

  /** `now` is `all` without its first `k` buffers and the first `c` bytes of the next one, of which
      some byte is left unless it was empty to begin with. */
  ghost predicate CutAt(all: seq<Bytes>, now: seq<Bytes>, k: nat, c: nat) {
    if k >= |all| then k == |all| && now == []
    else c <= |all[k]| && (c < |all[k]| || all[k] == []) && now == [all[k][c..]] + all[k + 1..]
  }

  ghost predicate TailOf(all: seq<Bytes>, now: seq<Bytes>) {
    exists k: nat, c: nat :: CutAt(all, now, k, c)
  }

  lemma TailOfItself(q: seq<Bytes>)
    ensures TailOf(q, q)
  {
    assert CutAt(q, q, 0, 0);
  }

  lemma TailOfTail(a: seq<Bytes>, b: seq<Bytes>, d: seq<Bytes>)
    requires TailOf(a, b) && TailOf(b, d)
    ensures TailOf(a, d)
  {
    var k: nat, c: nat :| CutAt(a, b, k, c);
    var m: nat, e: nat :| CutAt(b, d, m, e);
    if k == |a| {
      assert CutAt(a, d, k, 0);
    } else if m == 0 {
      assert CutAt(a, d, k, c + e);
    } else {
      assert CutAt(a, d, k + m, e);
    }
  }

  /** A message put behind both stays the last of both. */
  lemma TailOfLonger(all: seq<Bytes>, now: seq<Bytes>, msg: Bytes)
    requires TailOf(all, now)
    ensures TailOf(all + [msg], now + [msg])
  {
    var k: nat, c: nat :| CutAt(all, now, k, c);
    if k == |all| {
      assert CutAt(all + [msg], now + [msg], k, 0);
    } else {
      assert (all + [msg])[k + 1..] == all[k + 1..] + [msg];
      assert CutAt(all + [msg], now + [msg], k, c);
    }
  }

  /** One write takes bytes off the front buffer, and a buffer that is written leaves the queue. */
  lemma WriteFrontCuts(o: Outbound, answer: WriteResult)
    requires o.queue != []
    ensures TailOf(o.queue, WriteFront(o, answer).queue)
  {
    if answer.Ready? && answer.n >= |o.queue[0]| {
      if |o.queue| > 1 { assert o.queue[1..] == [o.queue[1][0..]] + o.queue[1 + 1..]; }
      assert CutAt(o.queue, WriteFront(o, answer).queue, 1, 0);
    } else if answer.Ready? {
      assert CutAt(o.queue, WriteFront(o, answer).queue, 0, answer.n);
    } else {
      TailOfItself(o.queue);
    }
  }

  lemma TailKeepsNonEmpty(all: seq<Bytes>, now: seq<Bytes>)
    requires TailOf(all, now) && forall i :: 0 <= i < |all| ==> all[i] != []
    ensures forall i :: 0 <= i < |now| ==> now[i] != []
    ensures now == [] <==> Flatten(now) == []
  {
  }

  // ---- how long a socket can keep the loop waiting ----

  /** `j` is the first write from `i` on with another answer than "ready, zero". */
  ghost predicate IsNextMove(answers: nat -> WriteResult, i: nat, j: nat) {
    j >= i && answers(j) != Ready(0) && forall k: nat :: i <= k < j ==> answers(k) == Ready(0)
  }

  ghost function FirstMove(answers: nat -> WriteResult, i: nat, m: nat): (j: nat)
    requires i <= m && answers(m) != Ready(0)
    ensures IsNextMove(answers, i, j)
    decreases m - i
  {
    if answers(i) != Ready(0) then i else FirstMove(answers, i + 1, m)
  }

  /** How many times in a row the socket will answer "ready, zero" from write `i` on. */
  ghost function Patience(answers: Answers, i: nat): (p: nat)
    ensures IsNextMove(answers, i, i + p)
  {
    assert !ZerosFrom(answers, i);
    var m: nat :| m >= i && answers(m) != Ready(0);
    FirstMove(answers, i, m) - i
  }

  lemma ZeroUsesUpPatience(answers: Answers, i: nat)
    requires answers(i) == Ready(0)
    ensures Patience(answers, i + 1) < Patience(answers, i)
  {
    var p, q := Patience(answers, i), Patience(answers, i + 1);
    assert i + 1 <= i + p;
  }

  /** Every ready turn shrinks the work left, or leaves it and uses up patience. */
  lemma ReadyTurnAdvances(o: Outbound, answers: Answers)
    requires o.queue != [] && answers(o.writes).Ready?
    ensures
      var o' := WriteFront(o, answers(o.writes));
      || Work(o') < Work(o)
      || (Work(o') == Work(o) && Patience(answers, o'.writes) < Patience(answers, o.writes))
  {
    var answer := answers(o.writes);
    ReadyTurnShrinksExactly(o, answer.n);
    if answer.n == 0 && o.queue[0] != [] { ZeroUsesUpPatience(answers, o.writes); }
  }

  /** `drain_write_queue_to_socket`: write until the queue is empty or the socket stops being ready. */
  function Drain(o: Outbound, answers: Answers): Outbound
    decreases Work(o), Patience(answers, o.writes)
  {
    if o.queue == [] then o
    else
      var answer := answers(o.writes);
      var o' := WriteFront(o, answer);
      if answer.Ready? then
        ReadyTurnAdvances(o, answers);
        Drain(o', answers)
      else o'
  }

  /** Of `n` writes from write `i` on, those answered by something else than "ready, zero". */
  function Moves(answers: nat -> WriteResult, i: nat, n: nat): nat
    decreases n
  {
    if n == 0 then 0 else (if answers(i) != Ready(0) then 1 else 0) + Moves(answers, i + 1, n - 1)
  }

  lemma {:induction false} ProgressAlwaysMoves(answers: nat -> WriteResult, i: nat, n: nat)
    requires Progress(answers)
    ensures Moves(answers, i, n) == n
    decreases n
  {
    if n > 0 { ProgressAlwaysMoves(answers, i + 1, n - 1); }
  }

  lemma {:induction false} DrainMoves(o: Outbound, answers: Answers)
    ensures o.writes <= Drain(o, answers).writes
    ensures Moves(answers, o.writes, Drain(o, answers).writes - o.writes) <= Work(o) + 1
    decreases Work(o), Patience(answers, o.writes)
  {
    if o.queue != [] && answers(o.writes).Ready? {
      ReadyTurnShrinksExactly(o, answers(o.writes).n);
      ReadyTurnAdvances(o, answers);
      DrainMoves(WriteFront(o, answers(o.writes)), answers);
    }
  }

  /** Draining moves bytes from the queue to the wire and loses none; it stops with an empty queue or
      on an answer that was not "ready". The writes on which the socket did something are at most one
      per byte, per buffer, and one more; all of them are, if it never answers "ready, zero". */
  lemma {:induction false} DrainConserves(o: Outbound, answers: Answers)
    ensures
      var o' := Drain(o, answers);
      && o'.wire + Pending(o') == o.wire + Pending(o)
      && o.wire <= o'.wire
      && o.writes <= o'.writes
      && Moves(answers, o.writes, o'.writes - o.writes) <= Work(o) + 1
      && (Progress(answers) ==> o'.writes <= o.writes + Work(o) + 1)
      && (o'.queue != [] ==> o'.writes > o.writes && !answers(o'.writes - 1).Ready?)
    decreases Work(o), Patience(answers, o.writes)
  {
    if o.queue != [] {
      var answer := answers(o.writes);
      WriteFrontConserves(o, answer);
      if answer.Ready? {
        ReadyTurnAdvances(o, answers);
        DrainConserves(WriteFront(o, answer), answers);
      }
    }
    DrainMoves(o, answers);
    if Progress(answers) { ProgressAlwaysMoves(answers, o.writes, Drain(o, answers).writes - o.writes); }
  }

  /** Draining a queue that is not empty makes at least one write. */
  lemma DrainAttempts(o: Outbound, answers: Answers)
    requires o.queue != []
    ensures Drain(o, answers).writes > o.writes
  {
    if answers(o.writes).Ready? {
      ReadyTurnAdvances(o, answers);
      DrainMoves(WriteFront(o, answers(o.writes)), answers);
    }
  }

  /** Draining leaves a tail of the queue, cut inside a buffer: a buffer with nothing left to write is
      never kept. */
  lemma {:induction false} DrainCuts(o: Outbound, answers: Answers)
    ensures TailOf(o.queue, Drain(o, answers).queue)
    decreases Work(o), Patience(answers, o.writes)
  {
    TailOfItself(o.queue);
    if o.queue != [] {
      var o' := WriteFront(o, answers(o.writes));
      WriteFrontCuts(o, answers(o.writes));
      if answers(o.writes).Ready? {
        ReadyTurnAdvances(o, answers);
        DrainCuts(o', answers);
        TailOfTail(o.queue, o'.queue, Drain(o', answers).queue);
      }
    }
  }

  /** `o'` is what a drain makes of `queue` on a socket that got `wire` in `writes` writes before: what is
      queued is tried until all of it is written or the socket refuses. */
  ghost predicate Tried(queue: seq<Bytes>, wire: Bytes, writes: nat, o': Outbound, answers: nat -> WriteResult) {
    && o'.wire + Pending(o') == wire + Flatten(queue) && TailOf(queue, o'.queue)
    && (queue != [] ==> o'.writes > writes)
    && (o'.queue != [] ==> o'.writes > 0 && !answers(o'.writes - 1).Ready?)
  }

  lemma DrainTries(o: Outbound, answers: Answers)
    ensures Tried(o.queue, o.wire, o.writes, Drain(o, answers), answers)
  {
    DrainConserves(o, answers);
    DrainCuts(o, answers);
    if o.queue != [] { DrainAttempts(o, answers); }
  }

  /** So draining non-empty buffers leaves only non-empty ones, and none exactly when every byte is on
      the wire. */
  lemma DrainedExactly(o: Outbound, answers: Answers)
    requires forall i :: 0 <= i < |o.queue| ==> o.queue[i] != []
    ensures
      var o' := Drain(o, answers);
      && (forall i :: 0 <= i < |o'.queue| ==> o'.queue[i] != [])
      && (o'.queue == [] <==> o'.wire == o.wire + Pending(o))
  {
    DrainCuts(o, answers);
    DrainConserves(o, answers);
    TailKeepsNonEmpty(o.queue, Drain(o, answers).queue);
    var o' := Drain(o, answers);
    assert |o'.wire| + |Pending(o')| == |o.wire + Pending(o)|;
    if Pending(o') == [] { assert o'.wire + [] == o'.wire; }
  }

  // ---- any socket at all ----

  /** The drain loop between two turns: `writable` is its flag. */
  datatype Draining = Draining(o: Outbound, writable: bool)

  predicate GoesOn(d: Draining) { d.writable && d.o.queue != [] }

  /** At most `n` turns of the drain loop, against any answers at all. */
  function Turns(o: Outbound, answers: nat -> WriteResult, n: nat): Draining
    decreases n
  {
    if n == 0 || o.queue == [] then Draining(o, true)
    else
      var o' := WriteFront(o, answers(o.writes));
      if answers(o.writes).Ready? then Turns(o', answers, n - 1) else Draining(o', false)
  }

  lemma {:induction false} TurnsAdd(o: Outbound, answers: nat -> WriteResult, m: nat, n: nat)
    ensures
      var d := Turns(o, answers, m);
      Turns(o, answers, m + n) == if GoesOn(d) then Turns(d.o, answers, n) else d
    decreases m
  {
    if m > 0 && o.queue != [] && answers(o.writes).Ready? {
      TurnsAdd(WriteFront(o, answers(o.writes)), answers, m - 1, n);
    }
  }

  /** Whatever the answers, no number of turns loses a byte or takes one back from the wire. */
  lemma {:induction false} TurnsConserve(o: Outbound, answers: nat -> WriteResult, n: nat)
    ensures
      var o' := Turns(o, answers, n).o;
      o'.wire + Pending(o') == o.wire + Pending(o) && o.wire <= o'.wire
    decreases n
  {
    if n > 0 && o.queue != [] {
      WriteFrontConserves(o, answers(o.writes));
      if answers(o.writes).Ready? { TurnsConserve(WriteFront(o, answers(o.writes)), answers, n - 1); }
    }
  }

  /** A loop that has ended is in the state the drain function computes. */
  lemma {:induction false} EndedTurnsDrain(o: Outbound, answers: Answers, n: nat)
    requires !GoesOn(Turns(o, answers, n))
    ensures Turns(o, answers, n).o == Drain(o, answers)
    decreases n
  {
    if o.queue != [] && answers(o.writes).Ready? {
      EndedTurnsDrain(WriteFront(o, answers(o.writes)), answers, n - 1);
    }
  }

  /** With answers that make progress, one turn more than there is work is enough. */
  lemma {:induction false} EnoughTurnsDrain(o: Outbound, answers: Answers, n: nat)
    requires Progress(answers) && n > Work(o)
    ensures Turns(o, answers, n).o == Drain(o, answers) && !GoesOn(Turns(o, answers, n))
    decreases n
  {
    if o.queue != [] && answers(o.writes).Ready? {
      ReadyTurnShrinksExactly(o, answers(o.writes).n);
      EnoughTurnsDrain(WriteFront(o, answers(o.writes)), answers, n - 1);
    }
  }

  ghost predicate LoopsForever(o: Outbound, answers: nat -> WriteResult) {
    forall n: nat :: GoesOn(Turns(o, answers, n))
  }

  /** The front buffer has bytes left, and every answer from now on takes none of them. */
  ghost predicate Stalled(d: Draining, answers: nat -> WriteResult) {
    GoesOn(d) && d.o.queue[0] != [] && ZerosFrom(answers, d.o.writes)
  }

  /** A stalled loop makes one write after the other and changes nothing else. */
  lemma {:induction false} StallChangesNothing(o: Outbound, answers: nat -> WriteResult, n: nat)
    requires Stalled(Draining(o, true), answers)
    ensures Turns(o, answers, n) == Draining(o.(writes := o.writes + n), true)
    decreases n
  {
    if n > 0 {
      ReadyTurnShrinksExactly(o, 0);
      StallChangesNothing(o.(writes := o.writes + 1), answers, n - 1);
    }
  }

  lemma ForeverFrom(o: Outbound, answers: nat -> WriteResult, m: nat)
    requires LoopsForever(o, answers)
    ensures LoopsForever(Turns(o, answers, m).o, answers)
  {
    forall n: nat ensures GoesOn(Turns(Turns(o, answers, m).o, answers, n)) {
      TurnsAdd(o, answers, m, n);
      assert GoesOn(Turns(o, answers, m)) && GoesOn(Turns(o, answers, m + n));
    }
  }

  /** Up to an answer other than "ready, zero", some turn shrinks the work left. */
  lemma {:induction false} SomeTurnShrinks(o: Outbound, answers: nat -> WriteResult, i: nat) returns (m: nat)
    requires LoopsForever(o, answers) && i >= o.writes && answers(i) != Ready(0)
    ensures Work(Turns(o, answers, m).o) < Work(o)
    decreases i - o.writes
  {
    assert GoesOn(Turns(o, answers, 0)) && GoesOn(Turns(o, answers, 1));
    var answer := answers(o.writes);
    ReadyTurnShrinksExactly(o, answer.n);
    if answer == Ready(0) && o.queue[0] != [] {
      ForeverFrom(o, answers, 1);
      var rest := SomeTurnShrinks(WriteFront(o, answer), answers, i);
      m := 1 + rest;
    } else {
      m := 1;
    }
  }

  lemma {:induction false} ForeverStalls(o: Outbound, answers: nat -> WriteResult) returns (m: nat)
    requires LoopsForever(o, answers)
    ensures Stalled(Turns(o, answers, m), answers)
    decreases Work(o)
  {
    assert GoesOn(Turns(o, answers, 0)) && GoesOn(Turns(o, answers, 1));
    if Stalled(Draining(o, true), answers) {
      m := 0;
    } else {
      var k := 1;
      if i: nat :| i >= o.writes && answers(i) != Ready(0) {
        k := SomeTurnShrinks(o, answers, i);
      } else {
        ReadyTurnShrinksExactly(o, answers(o.writes).n);
      }
      ForeverFrom(o, answers, k);
      var rest := ForeverStalls(Turns(o, answers, k).o, answers);
      TurnsAdd(o, answers, k, rest);
      m := k + rest;
    }
  }

  ghost predicate Stalls(o: Outbound, answers: nat -> WriteResult) {
    exists m: nat :: Stalled(Turns(o, answers, m), answers)
  }

  lemma StalledLoopsForever(o: Outbound, answers: nat -> WriteResult, m: nat, n: nat)
    requires Stalled(Turns(o, answers, m), answers)
    ensures GoesOn(Turns(o, answers, n))
  {
    if n <= m {
      TurnsAdd(o, answers, n, m - n);
    } else {
      TurnsAdd(o, answers, m, n - m);
      StallChangesNothing(Turns(o, answers, m).o, answers, n - m);
    }
  }

  /** Against any socket whatever, the drain loop spins without end exactly when at some point a
      non-empty front buffer meets nothing but "ready, zero" answers. */
  lemma SpinsExactly(o: Outbound, answers: nat -> WriteResult)
    ensures LoopsForever(o, answers) <==> Stalls(o, answers)
  {
    if LoopsForever(o, answers) {
      var m := ForeverStalls(o, answers);
    }
    if Stalls(o, answers) {
      var m: nat :| Stalled(Turns(o, answers, m), answers);
      forall n: nat ensures GoesOn(Turns(o, answers, n)) {
        StalledLoopsForever(o, answers, m, n);
      }
    }
  }

  /** The sockets of the reactor's runs are exactly those on which the loop ends, whatever the queue. */
  lemma RecoversExactly(answers: nat -> WriteResult)
    ensures Recovers(answers) <==> forall o: Outbound :: !LoopsForever(o, answers)
  {
    if Recovers(answers) {
      forall o: Outbound ensures !LoopsForever(o, answers) { SpinsExactly(o, answers); }
    } else {
      var i: nat :| ZerosFrom(answers, i);
      var o := Outbound([[0]], [], i);
      assert Stalled(Turns(o, answers, 0), answers);
      SpinsExactly(o, answers);
      assert LoopsForever(o, answers);
    }
  }
}
