/** A pipeline cut in two: one thread runs stages that end in a decoupler, another runs a coupler into
    the remaining stages, and a queue lies between them. */
module Split {
  import opened Reactive
  import opened Pipelines
  import opened PipelineRuns
  import opened Sequences

  /** The producer thread has pulled `pulled` and has `src` left. A `next` call first works through its
      own stages, which only that thread sees; the calls on the decoupler this leads to wait in
      `burst`, and each send is a step of its own. `kept` is the or of the results so far, `running`
      whether the producer's loop goes on, and `completed` whether it ended by itself.
      `taken` is what the consumer has received, `consuming` whether its loop goes on, `stopped` and
      `ranOut` the two ways it can have ended; `sent` is what was put into the queue. */
  datatype State = State(
    pulled: seq<Val>, src: seq<Val>, stages: Chain, burst: seq<Signal>, kept: bool,
    running: bool, completed: bool, senderAlive: bool,
    sent: seq<Val>, queue: seq<Val>, receiverAlive: bool,
    taken: seq<Val>, sink: Chain, consuming: bool, stopped: bool, ranOut: bool)

  /** One atomic step of one of the threads. Either end may be dropped whenever its thread is not in
      the middle of a call. */
  datatype Action = CallNext | Send | DropSender | Receive | DropReceiver

  function Start(stages: Chain, sink: Chain, src: seq<Val>): State {
    State([], src, stages, [], true, true, false, true, [], [], true, [], sink, true, false, false)
  }

  ghost predicate Shaped(s: State) {
    && Wired(s.stages) && Accepts(s.stages) && Wired(s.sink) && Accepts(s.sink)
  }

  function ProducerNext(s: State): State
    requires Wired(s.stages)
  {
    if !s.running || !s.senderAlive || s.burst != [] then s
    else if !s.kept then s.(running := false, completed := true)
    else if s.src == [] then
      s.(running := false, completed := true, stages := Feed(s.stages, [Complete]))
    else
      var item := [Next(s.src[0])];
      s.(pulled := s.pulled + [s.src[0]], src := s.src[1..], kept := false,
         burst := Through(s.stages, item), stages := Feed(s.stages, item))
  }

  /** The decoupler's `on_next` sends, and says whether that worked; its `on_complete` does nothing. */
  function SendOne(s: State): State {
    if s.burst == [] then s
    else
      var delivered := if s.burst[0].Next? && s.receiverAlive then [s.burst[0].v] else [];
      s.(burst := s.burst[1..], kept := s.kept || delivered != [],
         sent := s.sent + delivered, queue := s.queue + delivered)
  }

  function ConsumerNext(s: State): State
    requires s.sink.Link?
  {
    if !s.consuming || !s.receiverAlive then s
    else
      var d := Poll(s.queue, s.senderAlive, s.sink);
      s.(queue := d.queue, sink := d.chain, consuming := d.reply.Keep?,
         taken := if s.queue != [] then s.taken + [s.queue[0]] else s.taken,
         stopped := s.queue != [] && !d.reply.Keep?,
         ranOut := s.queue == [] && !d.reply.Keep?)
  }

  function Step(s: State, a: Action): (r: State)
    requires Wired(s.stages) && s.sink.Link?
    ensures Wired(r.stages) && r.sink.Link?
  {
    match a
    case CallNext => ProducerNext(s)
    case Send => SendOne(s)
    case DropSender => if s.burst == [] then s.(senderAlive := false, running := false) else s
    case Receive => ConsumerNext(s)
    case DropReceiver => s.(receiverAlive := false, consuming := false, queue := [])
  }

  /** The fused chain: the consumer's stages in place of the decoupler. */
  function Splice(c: Chain, d: Chain): Chain
    requires Wired(c)
  {
    if IsSink(c.op) then d else Link(c.op, c.heard, Splice(c.next, d))
  }

  lemma {:induction false} SpliceComposes(c: Chain, d: Chain, xs: seq<Val>)
    requires Wired(c) && Wired(d)
    ensures Wired(Splice(c, d)) && Denote(Splice(c, d), xs) == Denote(d, Denote(c, xs))
    ensures Accepts(Splice(c, d)) == Accepts(d) && Output(Splice(c, d)) == Output(d)
  {
    if !IsSink(c.op) { SpliceComposes(c.next, d, ListFunction(c.op, xs)); }
  }

  function SendAll(s: State): State
    decreases |s.burst|
  {
    if s.burst == [] then s else SendAll(SendOne(s))
  }

  lemma HasNextSplit(ss: seq<Signal>)
    requires ss != []
    ensures HasNext(ss) <==> ss[0].Next? || HasNext(ss[1..])
  {
    assert ss == [ss[0]] + ss[1..];
    HasNextAppend([ss[0]], ss[1..]);
    assert [ss[0]][0] == ss[0];
  }

  lemma {:induction false} SendAllDelivers(s: State)
    requires s.receiverAlive
    ensures SendAll(s) == s.(burst := [], kept := s.kept || HasNext(s.burst),
                             sent := s.sent + Values(s.burst), queue := s.queue + Values(s.burst))
    decreases |s.burst|
  {
    if s.burst == [] {
      assert s.sent + [] == s.sent && s.queue + [] == s.queue;
    } else {
      SendAllDelivers(SendOne(s));
      var first, rest := if s.burst[0].Next? then [s.burst[0].v] else [], s.burst[1..];
      Regrouped(s.sent, first, Values(rest));
      Regrouped(s.queue, first, Values(rest));
      HasNextSplit(s.burst);
    }
  }

  /** The steps are the code's: a call of the producer's `next` that nobody interrupts leaves the
      stages, and adds to the queue, what pushing the item into the real decoupler chain does, and the
      or of the send results is the boolean that `on_next` returns. */
  lemma UninterruptedCallIsPush(s: State)
    requires s.running && s.senderAlive && s.receiverAlive && s.kept && s.burst == [] && s.src != []
    requires Wired(s.stages) && Accepts(s.stages)
    ensures
      var s' := SendAll(ProducerNext(s));
      var pushed := OnNext(s.stages, s.src[0]);
      && s'.burst == [] && s'.stages == pushed.chain && Wired(pushed.chain)
      && s'.kept == pushed.reply.Keep?
      && exists items :: s'.queue == s.queue + items && Output(pushed.chain) == Output(s.stages) + items
  {
    var x := s.src[0];
    PushIsFeed(s.stages, x);
    KeepsExactly(s.stages, x);
    FeedOutput(s.stages, [Next(x)]);
    SendAllDelivers(ProducerNext(s));
    var items := Values(Through(s.stages, [Next(x)]));
    assert SendAll(ProducerNext(s)).queue == s.queue + items;
  }

  // ---- the invariant ----

  /** Chain `now` is chain `first` after the items `xs`, and perhaps a completion. */
  ghost predicate HasSeen(first: Chain, now: Chain, xs: seq<Val>, ended: bool)
    requires Wired(first)
  {
    now == Feed(first, if ended then Nexts(xs) + [Complete] else Nexts(xs))
  }

  /** The producer's stages and its unsent calls follow from what it pulled. */
  ghost predicate ProducerOk(s: State, stages0: Chain, src0: seq<Val>)
    requires Wired(stages0) && Wired(s.stages)
  {
    && s.pulled + s.src == src0
    && HasSeen(stages0, s.stages, s.pulled, s.completed && s.kept)
    && (s.running ==> s.senderAlive && !s.completed) && (!s.senderAlive ==> s.burst == [])
    && (s.completed ==> !s.running && s.burst == []) && (!s.running && s.senderAlive ==> s.completed)
    && (s.completed && s.kept ==> s.src == [])
    && (s.receiverAlive && !s.kept ==> Closed(s.stages) || HasNext(s.burst))
  }

  /** Nothing sent is lost or invented while the receiver is there; after that the queue is gone. */
  ghost predicate QueueOk(s: State, stages0: Chain)
    requires Wired(stages0)
  {
    && s.sent <= Denote(stages0, s.pulled)
    && s.taken <= s.sent
    && (s.receiverAlive ==> s.taken + s.queue == s.sent && s.sent + Values(s.burst) == Denote(stages0, s.pulled))
  }

  /** The consumer's stages follow from what it took, and its loop ended for a reason. */
  ghost predicate ConsumerOk(s: State, sink0: Chain, stages0: Chain)
    requires Wired(sink0) && Wired(stages0) && Wired(s.sink) && Wired(s.stages)
  {
    && HasSeen(sink0, s.sink, s.taken, s.ranOut)
    && (s.consuming ==> !s.stopped && !s.ranOut)
    && (!s.consuming && s.receiverAlive ==> s.stopped || s.ranOut)
    && (s.stopped ==> !s.ranOut && Closed(s.sink))
    && (s.ranOut ==> !s.senderAlive && s.burst == [] && s.taken == Denote(stages0, s.pulled))
    && (s.ranOut && s.completed && !s.kept ==> Closed(s.stages))
  }

  ghost predicate Inv(s: State, stages0: Chain, sink0: Chain, src0: seq<Val>) {
    && Wired(stages0) && Wired(sink0) && Shaped(s)
    && ProducerOk(s, stages0, src0) && QueueOk(s, stages0) && ConsumerOk(s, sink0, stages0)
  }

  lemma StartInv(stages0: Chain, sink0: Chain, src0: seq<Val>)
    requires Wired(stages0) && Accepts(stages0) && Wired(sink0) && Accepts(sink0)
    ensures Inv(Start(stages0, sink0, src0), stages0, sink0, src0)
  {
    FeedNothing(stages0);
    FeedNothing(sink0);
    ThroughComputes(stages0, []);
    assert Nexts([]) == [];
  }

  lemma NextsSnoc(xs: seq<Val>, x: Val)
    ensures Nexts(xs + [x]) == Nexts(xs) + [Next(x)]
  {
  }

  lemma DenoteSnoc(c: Chain, xs: seq<Val>, x: Val)
    requires Wired(c)
    ensures Denote(c, xs + [x]) == Denote(c, xs) + Values(Through(Feed(c, Nexts(xs)), [Next(x)]))
  {
    DenoteAppend(c, xs, [x]);
    ThroughComputes(Feed(c, Nexts(xs)), [Next(x)]);
    ValuesOfOne(x);
  }

  /** A push that gives the sink nothing leaves the chain closed. */
  lemma FruitlessPushCloses(c: Chain, x: Val)
    requires Wired(c) && Accepts(c)
    ensures Closed(Feed(c, [Next(x)])) || HasNext(Through(c, [Next(x)]))
  {
    KeepsExactly(c, x);
    PushIsFeed(c, x);
    if OnNext(c, x).reply.Stop? { StopCloses(c, x); }
  }

  lemma PullKeepsProducer(s: State, stages0: Chain, sink0: Chain, src0: seq<Val>)
    requires Inv(s, stages0, sink0, src0)
    requires s.running && s.senderAlive && s.burst == [] && s.kept && s.src != []
    ensures Shaped(ProducerNext(s)) && ProducerOk(ProducerNext(s), stages0, src0)
  {
    var x := s.src[0];
    FeedKeepsAccepts(s.stages, [Next(x)]);
    NextsSnoc(s.pulled, x);
    FeedAppend(stages0, Nexts(s.pulled), [Next(x)]);
    FruitlessPushCloses(s.stages, x);
    assert s.pulled + ([x] + s.src[1..]) == (s.pulled + [x]) + s.src[1..];
  }

  lemma PullKeepsQueue(s: State, stages0: Chain, sink0: Chain, src0: seq<Val>)
    requires Inv(s, stages0, sink0, src0)
    requires s.running && s.senderAlive && s.burst == [] && s.kept && s.src != []
    ensures QueueOk(ProducerNext(s), stages0)
  {
    DenoteSnoc(stages0, s.pulled, s.src[0]);
    assert s.sent + [] == s.sent;
  }

  lemma ProducerKeepsInv(s: State, stages0: Chain, sink0: Chain, src0: seq<Val>)
    requires Inv(s, stages0, sink0, src0)
    ensures Inv(ProducerNext(s), stages0, sink0, src0)
  {
    if s.running && s.senderAlive && s.burst == [] {
      if s.kept && s.src != [] {
        PullKeepsProducer(s, stages0, sink0, src0);
        PullKeepsQueue(s, stages0, sink0, src0);
      } else if s.kept {
        FeedKeepsAccepts(s.stages, [Complete]);
        FeedAppend(stages0, Nexts(s.pulled), [Complete]);
      }
    }
  }

  lemma SendKeepsProducer(s: State, stages0: Chain, src0: seq<Val>)
    requires Wired(stages0) && Wired(s.stages) && ProducerOk(s, stages0, src0) && s.burst != []
    ensures ProducerOk(SendOne(s), stages0, src0)
  {
    HasNextSplit(s.burst);
  }

  lemma SendKeepsQueue(s: State, stages0: Chain)
    requires Wired(stages0) && QueueOk(s, stages0) && s.burst != []
    ensures QueueOk(SendOne(s), stages0)
  {
    var rest := Values(s.burst[1..]);
    var first := if s.burst[0].Next? then [s.burst[0].v] else [];
    assert (s.sent + first) + rest == s.sent + (first + rest);
    assert s.taken + (s.queue + first) == (s.taken + s.queue) + first;
    assert s.sent + [] == s.sent;
  }

  lemma SendKeepsInv(s: State, stages0: Chain, sink0: Chain, src0: seq<Val>)
    requires Inv(s, stages0, sink0, src0)
    ensures Inv(SendOne(s), stages0, sink0, src0)
  {
    if s.burst != [] {
      SendKeepsProducer(s, stages0, src0);
      SendKeepsQueue(s, stages0);
    }
  }

  lemma ReceiveItemKeepsConsumer(s: State, stages0: Chain, sink0: Chain)
    requires Wired(sink0) && Wired(stages0) && Wired(s.sink) && Accepts(s.sink) && Wired(s.stages)
    requires ConsumerOk(s, sink0, stages0) && s.consuming && s.receiverAlive && s.queue != []
    ensures Wired(ConsumerNext(s).sink) && Accepts(ConsumerNext(s).sink)
    ensures ConsumerOk(ConsumerNext(s), sink0, stages0)
  {
    var x := s.queue[0];
    PushIsFeed(s.sink, x);
    FeedKeepsAccepts(s.sink, [Next(x)]);
    NextsSnoc(s.taken, x);
    FeedAppend(sink0, Nexts(s.taken), [Next(x)]);
    if OnNext(s.sink, x).reply.Stop? { StopCloses(s.sink, x); }
  }

  lemma ReceiveItemKeepsQueue(s: State, stages0: Chain)
    requires Wired(stages0) && s.sink.Link? && QueueOk(s, stages0)
    requires s.consuming && s.receiverAlive && s.queue != []
    ensures QueueOk(ConsumerNext(s), stages0)
  {
    assert (s.taken + [s.queue[0]]) + s.queue[1..] == s.taken + s.queue;
  }

  lemma ReceiveItemKeepsInv(s: State, stages0: Chain, sink0: Chain, src0: seq<Val>)
    requires Inv(s, stages0, sink0, src0) && s.consuming && s.receiverAlive && s.queue != []
    ensures Inv(ConsumerNext(s), stages0, sink0, src0)
  {
    ReceiveItemKeepsConsumer(s, stages0, sink0);
    ReceiveItemKeepsQueue(s, stages0);
  }

  lemma ReceiveEndKeepsInv(s: State, stages0: Chain, sink0: Chain, src0: seq<Val>)
    requires Inv(s, stages0, sink0, src0) && s.consuming && s.receiverAlive && s.queue == []
    ensures Inv(ConsumerNext(s), stages0, sink0, src0)
  {
    if !s.senderAlive {
      CompleteIsFeed(s.sink);
      FeedKeepsAccepts(s.sink, [Complete]);
      FeedAppend(sink0, Nexts(s.taken), [Complete]);
      assert s.taken + [] == s.taken && s.sent + [] == s.sent;
    }
  }

  lemma StepKeepsInv(s: State, a: Action, stages0: Chain, sink0: Chain, src0: seq<Val>)
    requires Inv(s, stages0, sink0, src0)
    ensures Inv(Step(s, a), stages0, sink0, src0)
  {
    match a
    case CallNext => ProducerKeepsInv(s, stages0, sink0, src0);
    case Send => SendKeepsInv(s, stages0, sink0, src0);
    case DropSender =>
    case Receive =>
      if s.consuming && s.receiverAlive {
        if s.queue != [] {
          ReceiveItemKeepsInv(s, stages0, sink0, src0);
        } else {
          ReceiveEndKeepsInv(s, stages0, sink0, src0);
        }
      }
    case DropReceiver =>
  }

  /** Any interleaving of the two threads. */
  function Exec(s: State, run: seq<Action>): (r: State)
    requires Wired(s.stages) && s.sink.Link?
    ensures Wired(r.stages) && r.sink.Link?
    decreases |run|
  {
    if run == [] then s else Exec(Step(s, run[0]), run[1..])
  }

  lemma {:induction false} ExecKeepsInv(s: State, run: seq<Action>, stages0: Chain, sink0: Chain, src0: seq<Val>)
    requires Inv(s, stages0, sink0, src0)
    ensures Inv(Exec(s, run), stages0, sink0, src0)
    decreases |run|
  {
    if run != [] {
      StepKeepsInv(s, run[0], stages0, sink0, src0);
      ExecKeepsInv(Step(s, run[0]), run[1..], stages0, sink0, src0);
    }
  }

  // ---- what every interleaving delivers ----

  lemma SeenOutput(first: Chain, now: Chain, xs: seq<Val>, ended: bool)
    requires Wired(first) && Accepts(first) && HasSeen(first, now, xs, ended)
    ensures Wired(now) && Output(now) == Output(first) + Denote(first, xs)
  {
    var ss := if ended then Nexts(xs) + [Complete] else Nexts(xs);
    ValuesOfNexts(xs);
    ValuesAppend(Nexts(xs), [Complete]);
    ValuesOfOne(Atom(0));
    assert xs + [] == xs;
    FeedOutput(first, ss);
    ThroughComputes(first, ss);
  }

  lemma DenotePrefix(c: Chain, a: seq<Val>, b: seq<Val>)
    requires Wired(c) && a <= b
    ensures Denote(c, a) <= Denote(c, b)
  {
    DenoteAppend(c, a, b[|a|..]);
    assert a + b[|a|..] == b;
  }

  /** A chain that is closed after `a` has no more to say on any longer list. */
  lemma ClosedDenotesSame(first: Chain, now: Chain, a: seq<Val>, b: seq<Val>)
    requires Wired(first) && Accepts(first) && HasSeen(first, now, a, false) && Closed(now) && a <= b
    ensures Denote(first, a) == Denote(first, b)
  {
    FeedKeepsAccepts(first, Nexts(a));
    ClosedDenotesNothing(now, b[|a|..]);
    DenoteAppend(first, a, b[|a|..]);
    assert a + b[|a|..] == b;
    assert Denote(first, a) + [] == Denote(first, a);
  }

  /** The output of the fused pipeline run by one thread. */
  lemma FusedOutput(stages: Chain, sink: Chain, src: seq<Val>)
    requires Wired(stages) && Accepts(stages) && Wired(sink) && Accepts(sink)
    ensures
      var fused := Splice(stages, sink);
      && Wired(fused) && Wired(Run(fused, src).chain)
      && Output(Run(fused, src).chain) == Output(sink) + Denote(sink, Denote(stages, src))
  {
    SpliceComposes(stages, sink, src);
    RunComputes(Splice(stages, sink), src);
  }

  /** While the receiver is there, what was taken followed by what is queued is what was sent. In every
      interleaving the sink's output is a prefix of what one thread running the fused pipeline over
      the whole source would produce. */
  lemma SplitIsPrefixOfFused(stages: Chain, sink: Chain, src: seq<Val>, run: seq<Action>)
    requires Wired(stages) && Accepts(stages) && Wired(sink) && Accepts(sink)
    ensures
      var s := Exec(Start(stages, sink, src), run);
      && Wired(s.sink) && Wired(Splice(stages, sink)) && Wired(Run(Splice(stages, sink), src).chain)
      && (s.receiverAlive ==> s.taken + s.queue == s.sent)
      && Output(s.sink) <= Output(Run(Splice(stages, sink), src).chain)
  {
    var s := Exec(Start(stages, sink, src), run);
    StartInv(stages, sink, src);
    ExecKeepsInv(Start(stages, sink, src), run, stages, sink, src);
    FusedOutput(stages, sink, src);
    SeenOutput(sink, s.sink, s.taken, s.ranOut);
    DenotePrefix(stages, s.pulled, src);
    DenotePrefix(sink, s.taken, Denote(stages, src));
  }

  /** When a loop has ended, everything its stages would make of the source has come out. */
  lemma EndedLoopsSaidAll(s: State, stages0: Chain, sink0: Chain, src0: seq<Val>)
    requires Inv(s, stages0, sink0, src0) && Accepts(stages0) && Accepts(sink0)
    ensures s.stopped ==> Denote(sink0, s.taken) == Denote(sink0, Denote(stages0, src0))
    ensures s.ranOut && s.completed ==> s.taken == Denote(stages0, src0)
  {
    DenotePrefix(stages0, s.pulled, src0);
    if s.stopped {
      ClosedDenotesSame(sink0, s.sink, s.taken, Denote(stages0, src0));
    }
    if s.ranOut && s.completed {
      if s.kept {
        assert s.pulled + [] == s.pulled;
      } else {
        ClosedDenotesSame(stages0, s.stages, s.pulled, src0);
      }
    }
  }

  /** Once the consumer's own loop has ended, the outputs are equal, provided that if it ended by
      running out of items, the sender was dropped only after the producer's loop had ended. */
  lemma SplitEqualsFused(stages: Chain, sink: Chain, src: seq<Val>, run: seq<Action>)
    requires Wired(stages) && Accepts(stages) && Wired(sink) && Accepts(sink)
    requires
      var s := Exec(Start(stages, sink, src), run);
      s.stopped || (s.ranOut && s.completed)
    ensures
      var s := Exec(Start(stages, sink, src), run);
      && Wired(s.sink) && Wired(Splice(stages, sink)) && Wired(Run(Splice(stages, sink), src).chain)
      && Output(s.sink) == Output(Run(Splice(stages, sink), src).chain)
  {
    var s := Exec(Start(stages, sink, src), run);
    StartInv(stages, sink, src);
    ExecKeepsInv(Start(stages, sink, src), run, stages, sink, src);
    FusedOutput(stages, sink, src);
    SeenOutput(sink, s.sink, s.taken, s.ranOut);
    EndedLoopsSaidAll(s, stages, sink, src);
  }

  // ---- every run gets to its end ----

  function Flag(b: bool): nat { if b then 1 else 0 }

  /** The calls the producer's stages will still make on the decoupler. */
  function Ahead(s: State): nat
    requires Wired(s.stages)
  {
    |s.burst| + |Through(s.stages, Nexts(s.src))|
  }

  /** An upper bound on the steps that can still change something: a call ahead is to be sent and
      received, an item to be pulled, a queued one to be received, and four things can end once. */
  function Fuel(s: State): nat
    requires Wired(s.stages)
  {
    2 * Ahead(s) + |s.queue| + |s.src|
    + Flag(s.running) + Flag(s.senderAlive) + Flag(s.receiverAlive) + Flag(s.consuming)
  }

  lemma PullKeepsAhead(s: State)
    requires Wired(s.stages) && s.running && s.senderAlive && s.burst == [] && s.kept && s.src != []
    ensures Ahead(ProducerNext(s)) == Ahead(s)
  {
    var item, rest := [Next(s.src[0])], Nexts(s.src[1..]);
    assert Nexts(s.src) == item + rest;
    FeedAppend(s.stages, item, rest);
  }

  lemma CallUsesFuel(s: State)
    requires Wired(s.stages)
    ensures ProducerNext(s) == s || Fuel(ProducerNext(s)) < Fuel(s)
  {
    if s.running && s.senderAlive && s.burst == [] && s.kept {
      if s.src != [] {
        PullKeepsAhead(s);
      } else {
        assert Nexts(s.src) == [];
        FeedNothing(Feed(s.stages, [Complete]));
      }
    }
  }

  ghost predicate Sound(s: State) {
    Wired(s.stages) && Wired(s.sink) && (s.consuming ==> !s.stopped && !s.ranOut)
  }

  /** Every step of either thread changes nothing or uses up fuel. */
  lemma StepUsesFuel(s: State, a: Action)
    requires Sound(s)
    ensures Step(s, a) == s || Fuel(Step(s, a)) < Fuel(s)
  {
    match a
    case CallNext => CallUsesFuel(s);
    case Send =>
    case DropSender =>
    case Receive => if s.queue == [] && !s.senderAlive { CompleteIsFeed(s.sink); }
    case DropReceiver =>
  }

  /** How many steps of the run change something. */
  ghost function Effective(s: State, run: seq<Action>): nat
    requires Wired(s.stages) && s.sink.Link?
    decreases |run|
  {
    if run == [] then 0
    else Flag(Step(s, run[0]) != s) + Effective(Step(s, run[0]), run[1..])
  }

  lemma {:induction false} EffectiveAtMostFuel(
    s: State, run: seq<Action>, stages0: Chain, sink0: Chain, src0: seq<Val>)
    requires Inv(s, stages0, sink0, src0)
    ensures Effective(s, run) <= Fuel(s)
    decreases |run|
  {
    if run != [] {
      StepUsesFuel(s, run[0]);
      StepKeepsInv(s, run[0], stages0, sink0, src0);
      EffectiveAtMostFuel(Step(s, run[0]), run[1..], stages0, sink0, src0);
    }
  }

  /** No interleaving goes on for ever: the steps that change anything are bounded by the source and by
      the calls its items lead to. */
  lemma EffectiveStepsBounded(stages: Chain, sink: Chain, src: seq<Val>, run: seq<Action>)
    requires Wired(stages) && Accepts(stages) && Wired(sink) && Accepts(sink)
    ensures Effective(Start(stages, sink, src), run) <= 2 * |Through(stages, Nexts(src))| + |src| + 4
  {
    StartInv(stages, sink, src);
    EffectiveAtMostFuel(Start(stages, sink, src), run, stages, sink, src);
  }

  /** Neither thread can do anything more by itself. */
  ghost predicate Stuck(s: State)
    requires Wired(s.stages) && s.sink.Link?
  {
    forall a: Action :: !a.DropSender? && !a.DropReceiver? ==> Step(s, a) == s
  }

  /** A stuck producer has ended, whatever became of the receiver. */
  lemma StuckProducerEnded(s: State, stages0: Chain, sink0: Chain, src0: seq<Val>)
    requires Inv(s, stages0, sink0, src0) && Stuck(s)
    ensures !s.running && s.burst == [] && (s.senderAlive ==> s.completed)
  {
    assert ProducerNext(s) == s by { assert Step(s, CallNext) == s; }
    assert SendOne(s) == s by { assert Step(s, Send) == s; }
  }

  /** While the receiver is there, a stuck producer has ended, and a stuck consumer has ended or waits
      with an empty queue for a sender that is still there. */
  lemma StuckHasEnded(s: State, stages0: Chain, sink0: Chain, src0: seq<Val>)
    requires Inv(s, stages0, sink0, src0) && Stuck(s) && s.receiverAlive
    ensures !s.running && s.burst == [] && (s.senderAlive ==> s.completed)
    ensures s.stopped || s.ranOut || (s.consuming && s.queue == [] && s.senderAlive)
  {
    StuckProducerEnded(s, stages0, sink0, src0);
    assert ConsumerNext(s) == s by { assert Step(s, Receive) == s; }
  }

  /** Every run after which neither thread can move has put out what the fused pipeline does, provided
      the receiver is there and the sender was not dropped before the producer's loop had ended. */
  lemma StuckEqualsFused(stages: Chain, sink: Chain, src: seq<Val>, run: seq<Action>)
    requires Wired(stages) && Accepts(stages) && Wired(sink) && Accepts(sink)
    requires
      var s := Exec(Start(stages, sink, src), run);
      s.receiverAlive && (s.senderAlive || s.completed) && Stuck(s)
    ensures
      var s := Exec(Start(stages, sink, src), run);
      && Wired(s.sink) && Wired(Splice(stages, sink)) && Wired(Run(Splice(stages, sink), src).chain)
      && Output(s.sink) == Output(Run(Splice(stages, sink), src).chain)
  {
    var s := Exec(Start(stages, sink, src), run);
    StartInv(stages, sink, src);
    ExecKeepsInv(Start(stages, sink, src), run, stages, sink, src);
    StuckHasEnded(s, stages, sink, src);
    if s.stopped || s.ranOut {
      SplitEqualsFused(stages, sink, src, run);
    } else {
      CompletedSaidAll(s, stages, sink, src);
      assert s.taken + [] == s.taken;
      FusedOutput(stages, sink, src);
      SeenOutput(sink, s.sink, s.taken, false);
    }
  }

  /** When the producer's loop has ended by itself, all its stages make of the source is sent. */
  lemma CompletedSaidAll(s: State, stages0: Chain, sink0: Chain, src0: seq<Val>)
    requires Inv(s, stages0, sink0, src0) && Accepts(stages0) && s.receiverAlive && s.completed
    ensures s.taken + s.queue == s.sent == Denote(stages0, src0)
  {
    assert s.sent + [] == s.sent;
    if s.kept {
      assert s.pulled + [] == s.pulled;
    } else {
      DenotePrefix(stages0, s.pulled, src0);
      assert !HasNext(s.burst);
      ClosedDenotesSame(stages0, s.stages, s.pulled, src0);
    }
  }

  /** Both threads go on, turn by turn, and neither end is dropped. */
  function Turns(n: nat): seq<Action> {
    if n == 0 then [] else [CallNext, Send, Receive] + Turns(n - 1)
  }

  function OneTurn(s: State): (r: State)
    requires Wired(s.stages) && s.sink.Link?
    ensures Wired(r.stages) && r.sink.Link?
  {
    Step(Step(Step(s, CallNext), Send), Receive)
  }

  lemma TurnsUnfold(s: State, n: nat)
    requires Wired(s.stages) && s.sink.Link? && n > 0
    ensures Exec(s, Turns(n)) == Exec(OneTurn(s), Turns(n - 1))
  {
    var run := Turns(n);
    var s1 := Step(s, CallNext);
    var s2 := Step(s1, Send);
    assert run[1..][1..][1..] == Turns(n - 1);
    assert Exec(s2, run[1..][1..]) == Exec(Step(s2, Receive), run[1..][1..][1..]);
    assert Exec(s1, run[1..]) == Exec(s2, run[1..][1..]);
  }

  ghost predicate SameEnds(s: State, r: State) {
    r.receiverAlive == s.receiverAlive && r.senderAlive == s.senderAlive && (s.completed ==> r.completed)
  }

  lemma CallKeepsEnds(s: State)
    requires Wired(s.stages)
    ensures SameEnds(s, ProducerNext(s))
  {
  }

  lemma ReceiveKeepsEnds(s: State)
    requires s.sink.Link?
    ensures SameEnds(s, ConsumerNext(s))
  {
  }

  /** A turn drops neither end and undoes no completion. */
  lemma TurnKeepsEnds(s: State)
    requires Wired(s.stages) && s.sink.Link?
    ensures SameEnds(s, OneTurn(s))
  {
    CallKeepsEnds(s);
    ReceiveKeepsEnds(Step(Step(s, CallNext), Send));
  }

  lemma TurnKeepsInv(s: State, stages0: Chain, sink0: Chain, src0: seq<Val>)
    requires Inv(s, stages0, sink0, src0)
    ensures Inv(OneTurn(s), stages0, sink0, src0)
  {
    StepKeepsInv(s, CallNext, stages0, sink0, src0);
    StepKeepsInv(Step(s, CallNext), Send, stages0, sink0, src0);
    StepKeepsInv(Step(Step(s, CallNext), Send), Receive, stages0, sink0, src0);
  }

  lemma TurnIsSound(s: State, stages0: Chain, sink0: Chain, src0: seq<Val>)
    requires Inv(s, stages0, sink0, src0)
    ensures Sound(s) && Sound(Step(s, CallNext)) && Sound(Step(Step(s, CallNext), Send))
  {
    StepKeepsInv(s, CallNext, stages0, sink0, src0);
    StepKeepsInv(Step(s, CallNext), Send, stages0, sink0, src0);
  }

  lemma TurnProgresses(s: State)
    requires Sound(s) && Sound(Step(s, CallNext)) && Sound(Step(Step(s, CallNext), Send))
    ensures Fuel(OneTurn(s)) < Fuel(s) || (Stuck(s) && OneTurn(s) == s)
  {
    StepUsesFuel(s, CallNext);
    StepUsesFuel(Step(s, CallNext), Send);
    StepUsesFuel(Step(Step(s, CallNext), Send), Receive);
  }

  /** What one turn of both comes to, as far as the turns after it are concerned. */
  lemma FirstTurn(s: State, n: nat, stages0: Chain, sink0: Chain, src0: seq<Val>) returns (r: State)
    requires Inv(s, stages0, sink0, src0) && n > 0
    ensures Inv(r, stages0, sink0, src0) && SameEnds(s, r) && Exec(s, Turns(n)) == Exec(r, Turns(n - 1))
    ensures Fuel(r) < Fuel(s) || (r == s && Stuck(s))
  {
    r := OneTurn(s);
    TurnIsSound(s, stages0, sink0, src0);
    TurnProgresses(s);
    TurnsUnfold(s, n);
    TurnKeepsInv(s, stages0, sink0, src0);
    TurnKeepsEnds(s);
  }

  /** More turns than there is fuel leave both threads stuck. */
  lemma {:induction false} TurnsGetStuck(s: State, n: nat, stages0: Chain, sink0: Chain, src0: seq<Val>)
    requires Inv(s, stages0, sink0, src0) && n > Fuel(s)
    ensures Stuck(Exec(s, Turns(n))) && SameEnds(s, Exec(s, Turns(n)))
    decreases n
  {
    var r := FirstTurn(s, n, stages0, sink0, src0);
    if Fuel(r) < Fuel(s) {
      TurnsGetStuck(r, n - 1, stages0, sink0, src0);
    } else {
      StuckStays(s, n);
    }
  }

  lemma {:induction false} StuckStays(s: State, n: nat)
    requires Wired(s.stages) && s.sink.Link? && Stuck(s)
    ensures Exec(s, Turns(n)) == s
    decreases n
  {
    if n > 0 {
      TurnsUnfold(s, n);
      StuckStays(s, n - 1);
    }
  }

  lemma {:induction false} ExecAppend(s: State, a: seq<Action>, b: seq<Action>)
    requires Wired(s.stages) && s.sink.Link?
    ensures Exec(s, a + b) == Exec(Exec(s, a), b)
    decreases |a|
  {
    if a == [] {
      assert a + b == b;
    } else {
      assert (a + b)[1..] == a[1..] + b;
      ExecAppend(Step(s, a[0]), a[1..], b);
    }
  }

  /** From whatever an interleaving has come to, with the receiver there and the sender not dropped too
      early, enough turns of both threads put out exactly what the fused pipeline does. */
  lemma EveryRunCanFinish(stages: Chain, sink: Chain, src: seq<Val>, run: seq<Action>, n: nat)
    requires Wired(stages) && Accepts(stages) && Wired(sink) && Accepts(sink)
    requires
      var s := Exec(Start(stages, sink, src), run);
      s.receiverAlive && (s.senderAlive || s.completed) && n > Fuel(s)
    ensures
      var r := Exec(Start(stages, sink, src), run + Turns(n));
      && Wired(r.sink) && Wired(Splice(stages, sink)) && Wired(Run(Splice(stages, sink), src).chain)
      && Output(r.sink) == Output(Run(Splice(stages, sink), src).chain)
  {
    var s0 := Start(stages, sink, src);
    var s := Exec(s0, run);
    StartInv(stages, sink, src);
    ExecKeepsInv(s0, run, stages, sink, src);
    TurnsGetStuck(s, n, stages, sink, src);
    ExecAppend(s0, run, Turns(n));
    StuckEqualsFused(stages, sink, src, run + Turns(n));
  }
}
