/** The counters and times in the allocator's state, read off the run that led to it. */
module AllocatorHistory {
  import opened Allocator
  import opened AllocatorThreads
  import opened AllocatorRuns

  // ---- failures and moves ----

  /** The action is a compare-and-swap by a thread whose loaded offset is no longer the shared one. */
  predicate LosesSwap(s: State, a: Action) {
    a.Advance? && a.t < |s.threads| && s.threads[a.t].Loaded? && s.threads[a.t].offset != s.current
  }

  function LostSwaps(s: State, run: seq<Action>): nat
    decreases |run|
  {
    if run == [] then 0 else (if LosesSwap(s, run[0]) then 1 else 0) + LostSwaps(Step(s, run[0]), run[1..])
  }

  /** How many actions of the run change the shared offset. */
  function OffsetMoves(s: State, run: seq<Action>): nat
    decreases |run|
  {
    if run == [] then 0
    else (if Step(s, run[0]).current != s.current then 1 else 0) + OffsetMoves(Step(s, run[0]), run[1..])
  }

  lemma {:induction false} CountersFollowRun(s: State, run: seq<Action>)
    ensures Exec(s, run).failed == s.failed + LostSwaps(s, run)
    ensures Exec(s, run).advanced == s.advanced + OffsetMoves(s, run)
    decreases |run|
  {
    if run != [] { CountersFollowRun(Step(s, run[0]), run[1..]); }
  }

  /** Lock-freedom, in terms of the run alone: every lost compare-and-swap is paid for by a move of the
      offset, each by at most all other threads. */
  lemma LostSwapsBounded(total: Word, threads: nat, run: seq<Action>)
    requires threads > 0
    ensures LostSwaps(Fresh(total, threads), run) <= (threads - 1) * OffsetMoves(Fresh(total, threads), run)
  {
    CountersFollowRun(Fresh(total, threads), run);
    FailuresBounded(total, threads, run);
  }

  // ---- sessions ----

  lemma {:induction false} NoReloadKeepsSession(s: State, run: seq<Action>)
    requires forall i :: 0 <= i < |run| ==> !run[i].Reload?
    ensures Exec(s, run).session == s.session
    decreases |run|
  {
    if run != [] {
      assert forall i :: 0 <= i < |run[1..]| ==> run[1..][i] == run[i + 1];
      NoReloadKeepsSession(Step(s, run[0]), run[1..]);
    }
  }

  /** After a load, whatever went before it, `num_allocated` is at rest the number of reservations since
      that load that were answered with a block. */
  lemma CountsSinceLoad(total: Word, threads: nat, before: seq<Action>, after: seq<Action>)
    requires AllIdle(Exec(Fresh(total, threads), before))
    requires forall i :: 0 <= i < |after| ==> !after[i].Reload?
    ensures
      var loaded := Exec(Fresh(total, threads), before + [Reload]);
      var s := Exec(Fresh(total, threads), before + [Reload] + after);
      && NumAllocated(loaded) == 0 && loaded.log == Exec(Fresh(total, threads), before).log
      && (AllIdle(s) ==> |loaded.log| <= |s.log| && NumAllocated(s) == Wrap(Successes(s.log[|loaded.log|..], total)))
  {
    var s0 := Fresh(total, threads);
    var all := before + [Reload] + after;
    ExecOneMore(s0, before, Reload);
    ExecAppend(s0, before + [Reload], after);
    NoReloadKeepsSession(Exec(s0, before + [Reload]), after);
    CounterCountsSession(total, threads, all);
  }

  // ---- times ----

  lemma {:induction false} ExecOneMore(s: State, run: seq<Action>, a: Action)
    ensures Exec(s, run + [a]) == Step(Exec(s, run), a)
    decreases |run|
  {
    if run == [] {
      assert [a][1..] == [] && run + [a] == [a];
    } else {
      assert (run + [a])[1..] == run[1..] + [a];
      ExecOneMore(Step(s, run[0]), run[1..], a);
    }
  }

  /** Action `i` of the run is a call of thread `t`, made while the clock showed `k`. */
  ghost predicate InvokesAt(s0: State, run: seq<Action>, i: nat, t: nat, size: Word, k: nat) {
    && i < |run| && run[i] == Invoke(t, size, ALIGN)
    && var s := Exec(s0, run[..i]);
       s.clock == k && t < |s.threads| && s.threads[t].Idle?
  }

  /** Action `i` of the run answers reservation `e`, while the clock showed `k`. */
  ghost predicate AnswersAt(s0: State, run: seq<Action>, i: nat, t: nat, e: nat, k: nat) {
    && i < |run| && run[i] == Advance(t)
    && var s := Exec(s0, run[..i]);
       s.clock == k && e !in s.replies && e in Step(s, run[i]).replies
  }

  ghost predicate Invoked(s0: State, run: seq<Action>, t: nat, size: Word, k: nat) {
    exists i: nat :: InvokesAt(s0, run, i, t, size, k)
  }

  ghost predicate AnsweredOnce(s0: State, run: seq<Action>, t: nat, e: nat, k: nat) {
    exists i: nat :: AnswersAt(s0, run, i, t, e, k)
  }

  /** Every recorded time is the clock at the action it stands for. */
  ghost predicate Dated(s0: State, run: seq<Action>) {
    var s := Exec(s0, run);
    && (forall t :: 0 <= t < |s.threads| && (s.threads[t].Trying? || s.threads[t].Loaded?) ==>
          Invoked(s0, run, t, s.threads[t].size, s.threads[t].invoked))
    && (forall e :: 0 <= e < |s.log| ==> Invoked(s0, run, s.log[e].thread, s.log[e].size, s.log[e].invoked))
    && (forall e :: e in s.replies ==> e < |s.log| && AnsweredOnce(s0, run, s.log[e].thread, e, s.replies[e].at))
  }

  lemma InvokedStays(s0: State, run: seq<Action>, a: Action, t: nat, size: Word, k: nat)
    requires Invoked(s0, run, t, size, k)
    ensures Invoked(s0, run + [a], t, size, k)
  {
    var i: nat :| InvokesAt(s0, run, i, t, size, k);
    assert (run + [a])[..i] == run[..i];
    assert InvokesAt(s0, run + [a], i, t, size, k);
  }

  lemma AnsweredStays(s0: State, run: seq<Action>, a: Action, t: nat, e: nat, k: nat)
    requires AnsweredOnce(s0, run, t, e, k)
    ensures AnsweredOnce(s0, run + [a], t, e, k)
  {
    var i: nat :| AnswersAt(s0, run, i, t, e, k);
    assert (run + [a])[..i] == run[..i];
    assert AnswersAt(s0, run + [a], i, t, e, k);
  }

  lemma InvokeIsDated(s0: State, run: seq<Action>, t: nat, size: Word)
    requires t < |Exec(s0, run).threads| && Exec(s0, run).threads[t].Idle?
    ensures Invoked(s0, run + [Invoke(t, size, ALIGN)], t, size, Exec(s0, run).clock)
  {
    var all := run + [Invoke(t, size, ALIGN)];
    assert all[..|run|] == run;
    assert InvokesAt(s0, all, |run|, t, size, Exec(s0, run).clock);
  }

  lemma AnswerIsDated(s0: State, run: seq<Action>, t: nat, e: nat)
    requires e !in Exec(s0, run).replies && e in Step(Exec(s0, run), Advance(t)).replies
    ensures AnsweredOnce(s0, run + [Advance(t)], t, e, Exec(s0, run).clock)
  {
    var all := run + [Advance(t)];
    assert all[..|run|] == run;
    assert AnswersAt(s0, all, |run|, t, e, Exec(s0, run).clock);
  }

  /** What one action does to the recorded times: a call brings in the present one, a won swap passes
      on its thread's, and an answer brings in the present one. */
  lemma StepDates(s: State, a: Action)
    requires Inv(s)
    ensures
      var s' := Step(s, a);
      && |s'.threads| == |s.threads| && s.log <= s'.log
      && (forall t :: 0 <= t < |s.threads| && (s'.threads[t].Trying? || s'.threads[t].Loaded?) ==>
            if (s.threads[t].Trying? || s.threads[t].Loaded?)
            then s'.threads[t].size == s.threads[t].size && s'.threads[t].invoked == s.threads[t].invoked
            else s.threads[t].Idle? && a == Invoke(t, s'.threads[t].size, ALIGN) && s'.threads[t].invoked == s.clock)
      && (forall e :: |s.log| <= e < |s'.log| ==>
            var t := s'.log[e].thread;
            && t < |s.threads| && s.threads[t].Loaded?
            && s'.log[e].size == s.threads[t].size && s'.log[e].invoked == s.threads[t].invoked)
      && (forall e :: e in s'.replies ==>
            && e < |s.log|
            && if e in s.replies then s'.replies[e] == s.replies[e]
               else a == Advance(s.log[e].thread) && s'.replies[e].at == s.clock)
  {
    if a.Advance? && a.t < |s.threads| { assert ThreadOk(s, a.t); }
  }

  lemma StepKeepsDates(s0: State, run: seq<Action>, a: Action)
    requires Inv(Exec(s0, run)) && Dated(s0, run)
    ensures Dated(s0, run + [a])
  {
    var s, all := Exec(s0, run), run + [a];
    var s' := Step(s, a);
    ExecOneMore(s0, run, a);
    StepDates(s, a);
    forall t | 0 <= t < |s'.threads| && (s'.threads[t].Trying? || s'.threads[t].Loaded?)
      ensures Invoked(s0, all, t, s'.threads[t].size, s'.threads[t].invoked)
    {
      if s.threads[t].Idle? {
        InvokeIsDated(s0, run, t, s'.threads[t].size);
      } else {
        InvokedStays(s0, run, a, t, s.threads[t].size, s.threads[t].invoked);
      }
    }
    forall e | 0 <= e < |s'.log| ensures Invoked(s0, all, s'.log[e].thread, s'.log[e].size, s'.log[e].invoked) {
      InvokedStays(s0, run, a, s'.log[e].thread, s'.log[e].size, s'.log[e].invoked);
    }
    forall e | e in s'.replies ensures e < |s'.log| && AnsweredOnce(s0, all, s'.log[e].thread, e, s'.replies[e].at) {
      if e in s.replies {
        AnsweredStays(s0, run, a, s.log[e].thread, e, s.replies[e].at);
      } else {
        AnswerIsDated(s0, run, s.log[e].thread, e);
      }
    }
  }

  lemma {:induction false} RunIsDated(total: Word, threads: nat, run: seq<Action>)
    ensures Dated(Fresh(total, threads), run)
    decreases |run|
  {
    var s0 := Fresh(total, threads);
    if run != [] {
      var before, last := run[..|run| - 1], run[|run| - 1];
      assert before + [last] == run;
      RunIsDated(total, threads, before);
      FreshInv(total, threads);
      ExecKeepsInv(s0, before);
      StepKeepsDates(s0, before, last);
    }
  }

  lemma {:induction false} ClockRuns(s: State, run: seq<Action>)
    ensures s.clock <= Exec(s, run).clock
    decreases |run|
  {
    if run != [] { ClockRuns(Step(s, run[0]), run[1..]); }
  }

  lemma {:induction false} ExecAppend(s: State, a: seq<Action>, b: seq<Action>)
    ensures Exec(s, a + b) == Exec(Exec(s, a), b)
    decreases |a|
  {
    if a == [] {
      assert a + b == b;
    } else {
      assert (a + b)[1..] == a[1..] + b;
      ExecAppend(Step(s, a[0]), a[1..], b);
    }
  }

  /** An action that answers a call moves the clock on, so a later action sees a later time. */
  lemma AnswersComeBefore(s0: State, run: seq<Action>, i: nat, j: nat, t: nat, e: nat, k: nat)
    requires AnswersAt(s0, run, i, t, e, k) && i < j <= |run|
    ensures k < Exec(s0, run[..j]).clock
  {
    var s := Exec(s0, run[..i]);
    assert run[..i + 1] == run[..i] + [run[i]];
    ExecOneMore(s0, run[..i], run[i]);
    assert run[..j] == run[..i + 1] + run[i + 1..j];
    ExecAppend(s0, run[..i + 1], run[i + 1..j]);
    ClockRuns(Exec(s0, run[..i + 1]), run[i + 1..j]);
  }

  /** The order of the reservations respects the order of the actions themselves: every reservation is
      invoked by some action and every answer given by some action of its thread, and whenever the
      answer to `a` comes before the invocation of `b` in the run, `a` is reserved before `b`. */
  lemma RealTimeOrder(total: Word, threads: nat, run: seq<Action>)
    ensures
      var s0 := Fresh(total, threads);
      var s := Exec(s0, run);
      && (forall e :: 0 <= e < |s.log| ==> Invoked(s0, run, s.log[e].thread, s.log[e].size, s.log[e].invoked))
      && (forall e :: e in s.replies ==> e < |s.log| && AnsweredOnce(s0, run, s.log[e].thread, e, s.replies[e].at))
      && (forall i: nat, j: nat, a: nat, b: nat ::
            && i < j && a in s.replies && a < |s.log| && b < |s.log|
            && AnswersAt(s0, run, i, s.log[a].thread, a, s.replies[a].at)
            && InvokesAt(s0, run, j, s.log[b].thread, s.log[b].size, s.log[b].invoked)
            ==> a < b)
  {
    var s0 := Fresh(total, threads);
    var s := Exec(s0, run);
    RunIsDated(total, threads, run);
    Linearizable(total, threads, run);
    forall i: nat, j: nat, a: nat, b: nat |
      && i < j && a in s.replies && a < |s.log| && b < |s.log|
      && AnswersAt(s0, run, i, s.log[a].thread, a, s.replies[a].at)
      && InvokesAt(s0, run, j, s.log[b].thread, s.log[b].size, s.log[b].invoked)
      ensures a < b
    {
      AnswersComeBefore(s0, run, i, j, s.log[a].thread, a, s.replies[a].at);
    }
  }
}
