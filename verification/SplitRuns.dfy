/** The two threads of a split pipeline, each as a run of its own: what they do while the receiver is
    there, and what a dropped receiver does to the producer. */
module SplitRuns {
  import opened Reactive
  import opened Pipelines
  import opened PipelineRuns
  import opened Split
  import opened Sequences

  // ---- a dropped receiver ----

  /** The chain with its sink replaced by a decoupler whose receiver is gone. */
  function Severed(c: Chain, sent: seq<Val>): (r: Chain)
    requires Wired(c)
    ensures Wired(r)
  {
    if IsSink(c.op) then Link(Decoupler(sent, false), c.heard, c.next)
    else Link(c.op, c.heard, Severed(c.next, sent))
  }

  lemma {:induction false} SeveredFeed(c: Chain, sent: seq<Val>, ss: seq<Signal>)
    requires Wired(c)
    ensures Feed(Severed(c, sent), ss) == Severed(Feed(c, ss), sent) && !Accepts(Severed(c, sent))
  {
    if !IsSink(c.op) {
      EmitKeepsKind(c.op, ss);
      SeveredFeed(c.next, sent, Emit(c.op, ss).out);
    }
  }

  lemma {:induction false} SendAllFails(s: State)
    requires !s.receiverAlive
    ensures SendAll(s) == s.(burst := [])
    decreases |s.burst|
  {
    if s.burst != [] {
      assert s.sent + [] == s.sent && s.queue + [] == s.queue;
      SendAllFails(SendOne(s));
    }
  }

  /** With the receiver gone, a producer call that nobody interrupts sends nothing and is told to stop,
      as pushing the item into the same stages above a closed decoupler is. */
  lemma SeveredCallIsPush(s: State, sent: seq<Val>)
    requires s.running && s.senderAlive && !s.receiverAlive && s.kept && s.burst == [] && s.src != []
    requires Wired(s.stages)
    ensures
      var s' := SendAll(ProducerNext(s));
      && s'.burst == [] && !s'.kept && s'.sent == s.sent && s'.queue == s.queue && Wired(s'.stages)
      && OnNext(Severed(s.stages, sent), s.src[0]) == Pushed(Severed(s'.stages, sent), Stop)
  {
    var x := s.src[0];
    SendAllFails(ProducerNext(s));
    SeveredFeed(s.stages, sent, [Next(x)]);
    PushIsFeed(Severed(s.stages, sent), x);
    KeepsExactly(Severed(s.stages, sent), x);
  }

  /** Where the state `r` stands to `s` in the course of one call. */
  ghost predicate KeptIfSent(s: State, r: State) {
    s.sent <= r.sent && (r.kept <==> s.kept || |r.sent| > |s.sent|)
  }

  lemma SendKeptIfSent(s: State)
    ensures KeptIfSent(s, SendOne(s))
  {
  }

  /** A receive touches nothing of the producer's. */
  lemma ReceiveLeavesProducer(s: State)
    requires s.sink.Link?
    ensures
      var r := ConsumerNext(s);
      r.sent == s.sent && r.kept == s.kept && r.pulled == s.pulled && r.receiverAlive == s.receiverAlive
  {
  }

  lemma StepKeptIfSent(s: State, a: Action)
    requires Wired(s.stages) && s.sink.Link? && a != CallNext
    ensures KeptIfSent(s, Step(s, a))
  {
    if a.Receive? { ReceiveLeavesProducer(s); }
    if a.Send? { SendKeptIfSent(s); }
  }

  /** In any interleaving, up to the producer's next call, "keep going" means that something was sent. */
  lemma {:induction false} KeptMeansSent(s: State, run: seq<Action>)
    requires Wired(s.stages) && s.sink.Link?
    requires forall i :: 0 <= i < |run| ==> run[i] != CallNext
    ensures KeptIfSent(s, Exec(s, run))
    decreases |run|
  {
    if run != [] {
      var next := Step(s, run[0]);
      assert forall i :: 0 <= i < |run[1..]| ==> run[1..][i] == run[i + 1];
      StepKeptIfSent(s, run[0]);
      KeptMeansSent(next, run[1..]);
    }
  }

  /** Where a producer without a receiver can have come from `s`. */
  ghost predicate DeadSince(s: State, r: State) {
    && !r.receiverAlive && r.sent == s.sent
    && s.pulled <= r.pulled && |r.pulled| <= |s.pulled| + 1 && (|r.pulled| > |s.pulled| ==> !r.kept)
  }

  lemma CallStaysDead(s: State, r: State)
    requires Wired(r.stages) && DeadSince(s, r)
    ensures DeadSince(s, ProducerNext(r))
  {
  }

  lemma StepStaysDead(s: State, r: State, a: Action)
    requires Wired(r.stages) && r.sink.Link? && DeadSince(s, r)
    ensures DeadSince(s, Step(r, a))
  {
    match a
    case CallNext => CallStaysDead(s, r);
    case Send => assert r.sent + [] == r.sent;
    case DropSender =>
    case Receive => ReceiveLeavesProducer(r);
    case DropReceiver =>
  }

  lemma {:induction false} ExecStaysDead(s: State, r: State, run: seq<Action>)
    requires Wired(r.stages) && r.sink.Link? && DeadSince(s, r)
    ensures DeadSince(s, Exec(r, run))
    decreases |run|
  {
    if run != [] {
      StepStaysDead(s, r, run[0]);
      ExecStaysDead(s, Step(r, run[0]), run[1..]);
    }
  }

  /** Once the receiver is gone, nothing more is sent, and the producer pulls at most one more item in
      whatever follows; after enough turns its loop has ended. */
  lemma SeveredProducerEnds(stages: Chain, sink: Chain, src: seq<Val>, run: seq<Action>, more: seq<Action>, n: nat)
    requires Wired(stages) && Accepts(stages) && Wired(sink) && Accepts(sink)
    requires !Exec(Start(stages, sink, src), run).receiverAlive
    requires n > Fuel(Exec(Exec(Start(stages, sink, src), run), more))
    ensures
      var s := Exec(Start(stages, sink, src), run);
      var r := Exec(s, more);
      var end := Exec(r, Turns(n));
      && r.sent == s.sent && s.pulled <= r.pulled && |r.pulled| <= |s.pulled| + 1
      && !end.running && end.sent == s.sent && s.pulled <= end.pulled && |end.pulled| <= |s.pulled| + 1
  {
    var s0 := Start(stages, sink, src);
    var s := Exec(s0, run);
    var r := Exec(s, more);
    StartInv(stages, sink, src);
    ExecKeepsInv(s0, run, stages, sink, src);
    ExecKeepsInv(s, more, stages, sink, src);
    ExecStaysDead(s, s, more);
    ExecStaysDead(s, r, Turns(n));
    EnoughTurnsEndProducer(r, n, stages, sink, src);
  }

  lemma EnoughTurnsEndProducer(r: State, n: nat, stages0: Chain, sink0: Chain, src0: seq<Val>)
    requires Inv(r, stages0, sink0, src0) && n > Fuel(r)
    ensures !Exec(r, Turns(n)).running
  {
    TurnsGetStuck(r, n, stages0, sink0, src0);
    ExecKeepsInv(r, Turns(n), stages0, sink0, src0);
    StuckProducerEnded(Exec(r, Turns(n)), stages0, sink0, src0);
  }

  // ---- runs in progress ----

  /** Pushing all of `xs`, one after the other, was answered "keep going" and led to `now`. */
  ghost predicate Reaches(c: Chain, xs: seq<Val>, now: Chain)
    requires c.Link?
    decreases |xs|
  {
    if xs == [] then now == c
    else OnNext(c, xs[0]).reply.Keep? && Reaches(OnNext(c, xs[0]).chain, xs[1..], now)
  }

  /** The last of `xs` was answered "stop", all before it "keep going". */
  ghost predicate StopsAt(c: Chain, xs: seq<Val>, now: Chain)
    requires c.Link?
    decreases |xs|
  {
    && xs != []
    && var r := OnNext(c, xs[0]);
       if r.reply.Keep? then StopsAt(r.chain, xs[1..], now)
       else r.reply.Stop? && xs[1..] == [] && now == r.chain
  }

  lemma {:induction false} ReachesOneMore(c: Chain, xs: seq<Val>, now: Chain, x: Val)
    requires c.Link? && Reaches(c, xs, now)
    ensures now.Link?
    ensures OnNext(now, x).reply.Keep? ==> Reaches(c, xs + [x], OnNext(now, x).chain)
    ensures OnNext(now, x).reply.Stop? ==> StopsAt(c, xs + [x], OnNext(now, x).chain)
    decreases |xs|
  {
    if xs == [] {
      assert xs + [x] == [x] && [x][1..] == [];
    } else {
      assert (xs + [x])[1..] == xs[1..] + [x];
      ReachesOneMore(OnNext(c, xs[0]).chain, xs[1..], now, x);
    }
  }

  /** A run over a longer source passes through every chain it reaches. */
  lemma {:induction false} RunPassesThrough(c: Chain, xs: seq<Val>, now: Chain, rest: seq<Val>)
    requires c.Link? && Reaches(c, xs, now)
    ensures now.Link?
    ensures var later := Run(now, rest); Run(c, xs + rest) == Ran(later.chain, |xs| + later.pulled, later.reply)
    decreases |xs|
  {
    if xs == [] {
      assert xs + rest == rest;
    } else {
      assert (xs + rest)[1..] == xs[1..] + rest;
      RunPassesThrough(OnNext(c, xs[0]).chain, xs[1..], now, rest);
    }
  }

  lemma {:induction false} RunStopsThere(c: Chain, xs: seq<Val>, now: Chain, rest: seq<Val>)
    requires c.Link? && StopsAt(c, xs, now)
    ensures Run(c, xs + rest) == Ran(now, |xs|, Stop)
    decreases |xs|
  {
    assert (xs + rest)[1..] == xs[1..] + rest;
    if OnNext(c, xs[0]).reply.Keep? { RunStopsThere(OnNext(c, xs[0]).chain, xs[1..], now, rest); }
  }

  // ---- each thread is a run ----

  /** The consumer's stages are those of a run over what it took, as far as that has come. */
  ghost predicate ConsumerRuns(s: State, sink0: Chain)
    requires sink0.Link?
  {
    && (!s.stopped && !s.ranOut ==> Reaches(sink0, s.taken, s.sink))
    && (s.stopped ==> StopsAt(sink0, s.taken, s.sink))
    && (s.ranOut ==> Run(sink0, s.taken) == Ran(s.sink, |s.taken|, Stop))
  }

  /** While the receiver is there, the producer's are those of a run over what it pulled; what is still
      to be sent of the last item counts as sent. */
  ghost predicate ProducerRuns(s: State, stages0: Chain)
    requires stages0.Link?
  {
    s.receiverAlive ==>
      var keeps := s.kept || HasNext(s.burst);
      && (keeps && !s.completed ==> Reaches(stages0, s.pulled, s.stages))
      && (keeps && s.completed ==> Run(stages0, s.pulled) == Ran(s.stages, |s.pulled|, Stop))
      && (!keeps ==> StopsAt(stages0, s.pulled, s.stages))
  }

  lemma ReceiveKeepsRuns(s: State, sink0: Chain)
    requires Sound(s) && sink0.Link? && ConsumerRuns(s, sink0)
    ensures ConsumerRuns(ConsumerNext(s), sink0)
  {
    if s.consuming && s.receiverAlive {
      if s.queue != [] {
        var x := s.queue[0];
        PushIsFeed(s.sink, x);
        ReachesOneMore(sink0, s.taken, s.sink, x);
      } else if !s.senderAlive {
        CompleteIsFeed(s.sink);
        RunPassesThrough(sink0, s.taken, s.sink, []);
        assert s.taken + [] == s.taken;
      }
    }
  }

  lemma CallKeepsRuns(s: State, stages0: Chain)
    requires Wired(s.stages) && Accepts(s.stages) && stages0.Link? && (s.running ==> !s.completed)
    requires ProducerRuns(s, stages0)
    ensures ProducerRuns(ProducerNext(s), stages0)
  {
    if s.running && s.senderAlive && s.burst == [] && s.receiverAlive && s.kept {
      if s.src != [] {
        var x := s.src[0];
        PushIsFeed(s.stages, x);
        KeepsExactly(s.stages, x);
        ReachesOneMore(stages0, s.pulled, s.stages, x);
      } else {
        CompleteIsFeed(s.stages);
        RunPassesThrough(stages0, s.pulled, s.stages, []);
        assert s.pulled + [] == s.pulled;
      }
    }
  }

  lemma SendKeepsRuns(s: State, stages0: Chain)
    requires stages0.Link? && ProducerRuns(s, stages0)
    ensures ProducerRuns(SendOne(s), stages0)
  {
    if s.burst != [] { HasNextSplit(s.burst); }
  }

  lemma StepKeepsRuns(s: State, a: Action, stages0: Chain, sink0: Chain, src0: seq<Val>)
    requires Inv(s, stages0, sink0, src0) && ConsumerRuns(s, sink0) && ProducerRuns(s, stages0)
    ensures ConsumerRuns(Step(s, a), sink0) && ProducerRuns(Step(s, a), stages0)
  {
    match a
    case CallNext => CallKeepsRuns(s, stages0);
    case Send => SendKeepsRuns(s, stages0);
    case DropSender =>
    case Receive => ReceiveKeepsRuns(s, sink0);
    case DropReceiver =>
  }

  lemma {:induction false} ExecKeepsRuns(s: State, run: seq<Action>, stages0: Chain, sink0: Chain, src0: seq<Val>)
    requires Inv(s, stages0, sink0, src0) && ConsumerRuns(s, sink0) && ProducerRuns(s, stages0)
    ensures ConsumerRuns(Exec(s, run), sink0) && ProducerRuns(Exec(s, run), stages0)
    decreases |run|
  {
    if run != [] {
      StepKeepsRuns(s, run[0], stages0, sink0, src0);
      StepKeepsInv(s, run[0], stages0, sink0, src0);
      ExecKeepsRuns(Step(s, run[0]), run[1..], stages0, sink0, src0);
    }
  }

  lemma EndedProducerRan(s: State, stages0: Chain, sink0: Chain, src0: seq<Val>)
    requires Inv(s, stages0, sink0, src0) && ProducerRuns(s, stages0) && s.receiverAlive && s.completed
    ensures Run(stages0, src0) == Ran(s.stages, |s.pulled|, Stop)
  {
    if s.kept {
      assert s.pulled + [] == s.pulled;
    } else {
      assert !HasNext(s.burst);
      RunStopsThere(stages0, s.pulled, s.stages, s.src);
    }
  }

  lemma StoppedConsumerRan(s: State, stages0: Chain, sink0: Chain, src0: seq<Val>)
    requires Inv(s, stages0, sink0, src0) && ConsumerRuns(s, sink0) && s.stopped
    ensures Run(sink0, Denote(stages0, src0)) == Ran(s.sink, |s.taken|, Stop)
  {
    var all := Denote(stages0, src0);
    DenotePrefix(stages0, s.pulled, src0);
    RunStopsThere(sink0, s.taken, s.sink, all[|s.taken|..]);
    assert s.taken + all[|s.taken|..] == all;
  }

  lemma EndedConsumerRan(s: State, stages0: Chain, sink0: Chain, src0: seq<Val>)
    requires Inv(s, stages0, sink0, src0) && ConsumerRuns(s, sink0) && Accepts(stages0) && Accepts(sink0)
    requires s.stopped || (s.ranOut && s.completed)
    ensures Run(sink0, Denote(stages0, src0)) == Ran(s.sink, |s.taken|, Stop)
  {
    if s.stopped {
      StoppedConsumerRan(s, stages0, sink0, src0);
    } else {
      EndedLoopsSaidAll(s, stages0, sink0, src0);
    }
  }

  /** Each thread, in every interleaving, has done just what a run of its own does when its loop ends: the
      producer pulled the items, and left its stages and their records, as a run over the source into
      an accepting decoupler; the consumer as a run over all that the producer's stages make of it. */
  lemma SplitIsTwoRuns(stages: Chain, sink: Chain, src: seq<Val>, run: seq<Action>)
    requires Wired(stages) && Accepts(stages) && Wired(sink) && Accepts(sink)
    ensures
      var s := Exec(Start(stages, sink, src), run);
      && (s.receiverAlive && s.completed ==> Run(stages, src) == Ran(s.stages, |s.pulled|, Stop))
      && (s.stopped || (s.ranOut && s.completed) ==>
            Run(sink, Denote(stages, src)) == Ran(s.sink, |s.taken|, Stop))
  {
    var s0 := Start(stages, sink, src);
    var s := Exec(s0, run);
    StartInv(stages, sink, src);
    ExecKeepsInv(s0, run, stages, sink, src);
    ExecKeepsRuns(s0, run, stages, sink, src);
    if s.receiverAlive && s.completed { EndedProducerRan(s, stages, sink, src); }
    if s.stopped || (s.ranOut && s.completed) { EndedConsumerRan(s, stages, sink, src); }
  }
}
