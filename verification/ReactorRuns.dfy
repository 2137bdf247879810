/** Whole runs of the reactor: any list of events, in any order, on any number of tokens. */
module ReactorRuns {
  import opened Protocol
  import opened ReadSide
  import opened WriteSide
  import opened Reactor
  import opened Sequences

  function Run(conns: map<Token, Conn>, events: seq<Event>, cfg: Config): (r: map<Token, Conn>)
    requires TableOk(conns, cfg)
    ensures TableOk(r, cfg)
    decreases |events|
  {
    if events == [] then conns else Run(Handle(conns, events[0], cfg), events[1..], cfg)
  }

  /** What the outside world did to a token since it was opened: whether it was accepted or connected,
      the messages posted to it, the byte strings that arrived for it, and whether it was ever reported
      readable. Nothing here knows of buffers, queues or sockets. */
  datatype Ledger = Ledger(accepted: bool, sent: seq<Bytes>, arrived: seq<Bytes>, woken: bool)

  function With(arrived: seq<Bytes>, result: ReadResult): seq<Bytes> {
    if result.Got? then arrived + [result.bytes] else arrived
  }

  function Woken(l: Ledger, result: ReadResult): Ledger {
    l.(arrived := With(l.arrived, result), woken := true)
  }

  function Enter(ledgers: map<Token, Ledger>, e: Event): map<Token, Ledger> {
    match e
    case Open(t, accepted, _) =>
      if t in ledgers then ledgers else ledgers[t := Ledger(accepted, [], [], false)]
    case Notify(t, msg) =>
      if t in ledgers then ledgers[t := ledgers[t].(sent := ledgers[t].sent + [msg])] else ledgers
    case Writable(_) => ledgers
    case Readable(t, result, hup) =>
      if t !in ledgers then ledgers
      else if hup then ledgers - {t}
      else ledgers[t := Woken(ledgers[t], result)]
  }

  function Ledgers(ledgers: map<Token, Ledger>, events: seq<Event>): map<Token, Ledger>
    decreases |events|
  {
    if events == [] then ledgers else Ledgers(Enter(ledgers, events[0]), events[1..])
  }

  /** The wire followed by what is queued is exactly the messages sent, in order, and the queue is a
      tail of the messages. */
  ghost predicate SendsAgree(o: Outbound, sent: seq<Bytes>) {
    o.wire + Pending(o) == Flatten(sent) && TailOf(sent, o.queue)
  }

  /** Flags are only ever added to `interest`, which starts as the hang-up alone; the event loop is told
      of `interest` whenever it grows, and before that it has the first registration. */
  ghost predicate RegistrationAgrees(c: Conn, l: Ledger) {
    && HUP in c.interest && (READABLE in c.interest <==> l.woken)
    && c.registered == if c.interest != {HUP} then c.interest else if l.accepted then {READABLE, HUP} else {READABLE}
  }

  /** A connection against its ledger: the read side is the reads taken in order, the write side is the
      messages in order, and while anything is queued the event loop has been asked to say when the
      socket is writable. */
  ghost predicate Agrees(c: Conn, l: Ledger, cfg: Config)
    requires cfg.frame > 0
  {
    && c.inbound == ReceiveAll(NewInbound(cfg), l.arrived, cfg)
    && SendsAgree(c.outbound, l.sent)
    && (c.outbound.queue != [] ==> WRITABLE in c.interest)
    && RegistrationAgrees(c, l)
  }

  ghost predicate AllAgree(conns: map<Token, Conn>, ledgers: map<Token, Ledger>, cfg: Config)
    requires cfg.frame > 0
  {
    conns.Keys == ledgers.Keys && forall t :: t in conns ==> Agrees(conns[t], ledgers[t], cfg)
  }

  lemma {:induction false} ReceiveOneMore(i: Inbound, input: seq<Bytes>, bytes: Bytes, cfg: Config)
    requires cfg.frame > 0 && InboundOk(i, cfg)
    ensures
      var i' := ReceiveAll(i, input, cfg);
      ReceiveAll(i, input + [bytes], cfg) == if |bytes| > i'.room then i' else Receive(i', bytes, cfg)
    decreases |input|
  {
    if input == [] {
      assert (input + [bytes])[1..] == [];
    } else {
      assert (input + [bytes])[1..] == input[1..] + [bytes];
      ReceiveOneMore(if |input[0]| > i.room then i else Receive(i, input[0], cfg), input[1..], bytes, cfg);
    }
  }

  lemma DrainAgrees(o: Outbound, answers: Answers, sent: seq<Bytes>)
    requires SendsAgree(o, sent)
    ensures SendsAgree(Drain(o, answers), sent)
  {
    DrainConserves(o, answers);
    DrainCuts(o, answers);
    TailOfTail(sent, o.queue, Drain(o, answers).queue);
  }

  lemma FlushAgrees(c: Conn, l: Ledger, cfg: Config)
    requires cfg.frame > 0
    requires c.inbound == ReceiveAll(NewInbound(cfg), l.arrived, cfg)
    requires SendsAgree(c.outbound, l.sent) && RegistrationAgrees(c, l)
    ensures Agrees(Flush(c), l, cfg)
  {
    DrainAgrees(c.outbound, c.answers, l.sent);
  }

  lemma EnqueueAgrees(c: Conn, sent: seq<Bytes>, msg: Bytes)
    requires SendsAgree(c.outbound, sent)
    ensures SendsAgree(Enqueue(c, msg).outbound, sent + [msg])
  {
    FlattenAppend(c.outbound.queue, [msg]);
    FlattenAppend(sent, [msg]);
    TailOfLonger(sent, c.outbound.queue, msg);
    assert Flatten([msg]) == msg + [] == msg;
    Regrouped(c.outbound.wire, Pending(c.outbound), msg);
  }

  lemma PostAgrees(c: Conn, l: Ledger, msg: Bytes, cfg: Config)
    requires cfg.frame > 0 && Agrees(c, l, cfg)
    ensures Agrees(Flush(Enqueue(c, msg)), l.(sent := l.sent + [msg]), cfg)
  {
    EnqueueAgrees(c, l.sent, msg);
    FlushAgrees(Enqueue(c, msg), l.(sent := l.sent + [msg]), cfg);
  }

  lemma ReadAgrees(c: Conn, l: Ledger, result: ReadResult, cfg: Config)
    requires cfg.frame > 0 && InboundOk(c.inbound, cfg) && Agrees(c, l, cfg)
    ensures Agrees(AskReadable(Absorb(c, result, cfg)), Woken(l, result), cfg)
  {
    if result.Got? {
      ReceiveOneMore(NewInbound(cfg), l.arrived, result.bytes, cfg);
    }
  }

  lemma ReplaceAgrees(conns: map<Token, Conn>, ledgers: map<Token, Ledger>, t: Token, c: Conn, l: Ledger, cfg: Config)
    requires cfg.frame > 0 && AllAgree(conns, ledgers, cfg) && Agrees(c, l, cfg)
    ensures AllAgree(conns[t := c], ledgers[t := l], cfg)
  {
  }

  lemma HandleAgrees(conns: map<Token, Conn>, ledgers: map<Token, Ledger>, e: Event, cfg: Config)
    requires TableOk(conns, cfg) && AllAgree(conns, ledgers, cfg)
    ensures AllAgree(Handle(conns, e, cfg), Enter(ledgers, e), cfg)
  {
    var t := e.token;
    if t in conns {
      var c, l := conns[t], ledgers[t];
      match e
      case Open(_, _, _) =>
      case Notify(_, msg) =>
        PostAgrees(c, l, msg, cfg);
        ReplaceAgrees(conns, ledgers, t, Flush(Enqueue(c, msg)), l.(sent := l.sent + [msg]), cfg);
      case Writable(_) =>
        FlushAgrees(c, l, cfg);
        ReplaceAgrees(conns, ledgers, t, Flush(c), l, cfg);
        assert ledgers[t := l] == ledgers;
      case Readable(_, result, hup) =>
        if !hup {
          ReadAgrees(c, l, result, cfg);
          ReplaceAgrees(conns, ledgers, t, AskReadable(Absorb(c, result, cfg)), Woken(l, result), cfg);
        }
    } else if e.Open? {
      TailOfItself([]);
      ReplaceAgrees(conns, ledgers, t, NewConn(e.accepted, e.answers, cfg), Ledger(e.accepted, [], [], false), cfg);
    }
  }

  lemma {:induction false} RunAgrees(
    conns: map<Token, Conn>, ledgers: map<Token, Ledger>, events: seq<Event>, cfg: Config)
    requires TableOk(conns, cfg) && AllAgree(conns, ledgers, cfg)
    ensures AllAgree(Run(conns, events, cfg), Ledgers(ledgers, events), cfg)
    decreases |events|
  {
    if events != [] {
      HandleAgrees(conns, ledgers, events[0], cfg);
      RunAgrees(Handle(conns, events[0], cfg), Enter(ledgers, events[0]), events[1..], cfg);
    }
  }

  /** For every run from an empty table and every connection open at its end, whatever happened on
      other tokens: its wire bytes followed by its queue are the messages sent to it; its delivered
      frames and waiting bytes are the surviving received bytes, framed in order; and a non-empty
      queue will be woken up. */
  lemma EveryConnectionConserves(events: seq<Event>, cfg: Config, t: Token)
    requires cfg.frame > 0 && t in Run(map[], events, cfg)
    ensures t in Ledgers(map[], events)
    ensures
      var c := Run(map[], events, cfg)[t];
      var l := Ledgers(map[], events)[t];
      && c.outbound.wire + Flatten(c.outbound.queue) == Flatten(l.sent)
      && InboundOk(c.inbound, cfg)
      && Held(c.inbound) == Survivors(cfg.readBufSize, 0, [], l.arrived, cfg)
      && |c.inbound.delivered| == FramesRead(cfg.readBufSize, l.arrived, cfg)
      && Framed(c.inbound, cfg)
      && (c.outbound.queue != [] ==> WRITABLE in c.registered)
  {
    RunAgrees(map[], map[], events, cfg);
    var l := Ledgers(map[], events)[t];
    assert Agrees(Run(map[], events, cfg)[t], l, cfg);
    ReadStory(l.arrived, cfg);
  }

  /** What is queued for a connection is a tail of the messages sent to it, cut inside a message; if none
      of them was empty, the queue is empty exactly when every byte sent is on the wire. */
  lemma IdleExactly(events: seq<Event>, cfg: Config, t: Token)
    requires cfg.frame > 0 && t in Run(map[], events, cfg)
    ensures t in Ledgers(map[], events)
    ensures
      var o := Run(map[], events, cfg)[t].outbound;
      var sent := Ledgers(map[], events)[t].sent;
      && TailOf(sent, o.queue)
      && ((forall i :: 0 <= i < |sent| ==> sent[i] != []) ==> (o.queue == [] <==> o.wire == Flatten(sent)))
  {
    RunAgrees(map[], map[], events, cfg);
    var o, l := Run(map[], events, cfg)[t].outbound, Ledgers(map[], events)[t];
    assert Agrees(Run(map[], events, cfg)[t], l, cfg);
    assert |o.wire| + |Pending(o)| == |Flatten(l.sent)|;
    if forall i :: 0 <= i < |l.sent| ==> l.sent[i] != [] {
      TailKeepsNonEmpty(l.sent, o.queue);
      assert o.wire + [] == o.wire;
    }
  }

  /** A token is open at the end of a run exactly when the outside world opened it and did not hang
      up since. */
  lemma OpenExactly(events: seq<Event>, cfg: Config, t: Token)
    requires cfg.frame > 0
    ensures t in Run(map[], events, cfg) <==> t in Ledgers(map[], events)
  {
    RunAgrees(map[], map[], events, cfg);
  }

  predicate Flushes(e: Event, t: Token) { (e.Notify? || e.Writable?) && e.token == t }

  lemma FlushTries(c: Conn)
    ensures Tried(c.outbound.queue, c.outbound.wire, c.outbound.writes, Flush(c).outbound, c.answers)
  {
    DrainTries(c.outbound, c.answers);
  }

  /** A message or writable event of a connection tries to write whatever is queued then, until all of it
      is written or the socket refuses; no other event touches the write side. */
  lemma FlushesWrite(conns: map<Token, Conn>, e: Event, cfg: Config, t: Token)
    requires TableOk(conns, cfg) && t in conns && t in Handle(conns, e, cfg)
    ensures
      var o, o' := conns[t].outbound, Handle(conns, e, cfg)[t].outbound;
      if Flushes(e, t) then
        Tried(if e.Notify? then o.queue + [e.msg] else o.queue, o.wire, o.writes, o', conns[t].answers)
      else o' == o
  {
    if e.Notify? && e.token == t {
      FlushTries(Enqueue(conns[t], e.msg));
    } else if e.Writable? && e.token == t {
      FlushTries(conns[t]);
    }
  }

  // ---- backlogs ----

  lemma {:induction false} RunOneMore(conns: map<Token, Conn>, events: seq<Event>, e: Event, cfg: Config)
    requires TableOk(conns, cfg)
    ensures Run(conns, events + [e], cfg) == Handle(Run(conns, events, cfg), e, cfg)
    decreases |events|
  {
    if events == [] {
      assert [e][1..] == [] && events + [e] == [e];
      assert Run(Handle(conns, e, cfg), [], cfg) == Handle(conns, e, cfg);
    } else {
      assert (events + [e])[1..] == events[1..] + [e];
      RunOneMore(Handle(conns, events[0], cfg), events[1..], e, cfg);
    }
  }

  /** Since `t` was last opened, some message or writable event left bytes in its queue. */
  ghost predicate Backlogged(events: seq<Event>, cfg: Config, t: Token)
    requires cfg.frame > 0
    decreases |events|
  {
    && events != []
    && t in Run(map[], events, cfg)
    && var before, last := events[..|events| - 1], events[|events| - 1];
       || Backlogged(before, cfg, t)
       || (Flushes(last, t) && Run(map[], events, cfg)[t].outbound.queue != [])
  }

  lemma StepAsksWritable(conns: map<Token, Conn>, e: Event, cfg: Config, t: Token)
    requires TableOk(conns, cfg) && t in Handle(conns, e, cfg)
    ensures
      var c := Handle(conns, e, cfg)[t];
      WRITABLE in c.interest <==>
        (t in conns && WRITABLE in conns[t].interest) || (Flushes(e, t) && c.outbound.queue != [])
  {
  }

  /** The connection's flag remembers whether there ever was a backlog. */
  lemma {:induction false} BacklogIsRemembered(events: seq<Event>, cfg: Config, t: Token)
    requires cfg.frame > 0 && t in Run(map[], events, cfg)
    ensures WRITABLE in Run(map[], events, cfg)[t].interest <==> Backlogged(events, cfg, t)
    decreases |events|
  {
    var before, last := events[..|events| - 1], events[|events| - 1];
    assert events == before + [last];
    RunOneMore(map[], before, last, cfg);
    StepAsksWritable(Run(map[], before, cfg), last, cfg, t);
    if t in Run(map[], before, cfg) { BacklogIsRemembered(before, cfg, t); }
  }

  /** What the event loop was last told of a connection, from its history alone: until it has been
      readable or had a backlog, what it was registered for when accepted or connected; from then on
      hang-ups, reading if it has been readable, and writing if it had a backlog. */
  lemma RegistrationExactly(events: seq<Event>, cfg: Config, t: Token)
    requires cfg.frame > 0 && t in Run(map[], events, cfg)
    ensures t in Ledgers(map[], events)
    ensures
      var l, backlogged := Ledgers(map[], events)[t], Backlogged(events, cfg, t);
      Run(map[], events, cfg)[t].registered ==
        if l.woken || backlogged
        then {HUP} + (if l.woken then {READABLE} else {}) + (if backlogged then {WRITABLE} else {})
        else if l.accepted then {READABLE, HUP} else {READABLE}
  {
    RunAgrees(map[], map[], events, cfg);
    BacklogIsRemembered(events, cfg, t);
    var c, l := Run(map[], events, cfg)[t], Ledgers(map[], events)[t];
    assert Agrees(c, l, cfg);
    FlagsMakeTheSet(c.interest);
  }

  lemma FlagsMakeTheSet(flags: set<Interest>)
    ensures flags ==
      (if HUP in flags then {HUP} else {}) + (if READABLE in flags then {READABLE} else {})
      + (if WRITABLE in flags then {WRITABLE} else {})
  {
    var all := (if HUP in flags then {HUP} else {}) + (if READABLE in flags then {READABLE} else {})
               + (if WRITABLE in flags then {WRITABLE} else {});
    forall f: Interest ensures f in flags <==> f in all {
      match f
      case READABLE =>
      case WRITABLE =>
      case HUP =>
    }
  }

  /** The event loop is asked to report a connection readable exactly if it has been readable before or
      never had a backlog of output. */
  lemma ReadRegistrationExactly(events: seq<Event>, cfg: Config, t: Token)
    requires cfg.frame > 0 && t in Run(map[], events, cfg)
    ensures t in Ledgers(map[], events)
    ensures
      READABLE in Run(map[], events, cfg)[t].registered <==>
        Ledgers(map[], events)[t].woken || !Backlogged(events, cfg, t)
  {
    RegistrationExactly(events, cfg, t);
  }

  /** So a first message that cannot be written at once, to a connection that has not been readable
      yet, replaces the first registration by one without READABLE. */
  lemma EarlyBacklogMutesReading(cfg: Config, t: Token, accepted: bool, answers: Answers, msg: Bytes)
    requires cfg.frame > 0 && !answers(0).Ready?
    ensures
      var run := Run(map[], [Open(t, accepted, answers), Notify(t, msg)], cfg);
      t in run && run[t].registered == {HUP, WRITABLE}
  {
    var first, second := Open(t, accepted, answers), Notify(t, msg);
    var start := Handle(map[], first, cfg);
    var muted := Handle(start, second, cfg);
    assert [first, second][1..] == [second] && [second][1..] == [];
    assert Run(muted, [], cfg) == muted;
    assert Run(start, [second], cfg) == Run(muted, [second][1..], cfg);
    assert Run(map[], [first, second], cfg) == Run(start, [first, second][1..], cfg);
    var c := NewConn(accepted, answers, cfg);
    var o := Enqueue(c, msg).outbound;
    assert Drain(o, answers).queue == o.queue != [];
    assert start[t] == c;
  }

  // ---- the channels ----

  /** Everything a run puts on the channels, in order. */
  function Channel(conns: map<Token, Conn>, events: seq<Event>, cfg: Config): seq<ProtoMsg>
    requires TableOk(conns, cfg)
    decreases |events|
  {
    if events == [] then []
    else Sends(conns, events[0], cfg) + Channel(Handle(conns, events[0], cfg), events[1..], cfg)
  }

  /** The frames that carry the tag `t`. */
  function From(msgs: seq<ProtoMsg>, t: Token): seq<Bytes> {
    if msgs == [] then []
    else (if msgs[0].token == t then [msgs[0].item] else []) + From(msgs[1..], t)
  }

  lemma {:induction false} FromAppend(a: seq<ProtoMsg>, b: seq<ProtoMsg>, t: Token)
    ensures From(a + b, t) == From(a, t) + From(b, t)
  {
    if a == [] {
      assert a + b == b;
    } else {
      assert (a + b)[1..] == a[1..] + b;
      FromAppend(a[1..], b, t);
    }
  }

  lemma {:induction false} FromTagged(frames: seq<Bytes>, u: Token, t: Token)
    ensures From(Tagged(frames, u), t) == if u == t then frames else []
    decreases |frames|
  {
    if frames != [] {
      assert Tagged(frames, u)[1..] == Tagged(frames[1..], u);
      FromTagged(frames[1..], u, t);
    }
  }

  /** The connections a token has named so far, each as the byte strings that arrived for it: those
      already hung up, and the present one. */
  datatype Lives = Lives(over: seq<seq<Bytes>>, isOpen: bool, present: seq<Bytes>)

  function Live(l: Lives, e: Event, t: Token): Lives {
    if e.token != t then l
    else
      match e
      case Open(_, _, _) => if l.isOpen then l else Lives(l.over, true, [])
      case Readable(_, result, hup) =>
        if !l.isOpen then l
        else
          var arrived := With(l.present, result);
          if hup then Lives(l.over + [arrived], false, []) else l.(present := arrived)
      case _ => l
  }

  function LiveAll(l: Lives, events: seq<Event>, t: Token): Lives
    decreases |events|
  {
    if events == [] then l else LiveAll(Live(l, events[0], t), events[1..], t)
  }

  /** The frames a new connection delivers from what arrives for it. */
  function FramesOf(arrived: seq<Bytes>, cfg: Config): seq<Bytes>
    requires cfg.frame > 0
  {
    ReceiveAll(NewInbound(cfg), arrived, cfg).delivered
  }

  function FramesOfEach(lives: seq<seq<Bytes>>, cfg: Config): seq<Bytes>
    requires cfg.frame > 0
  {
    if lives == [] then []
    else FramesOfEach(lives[..|lives| - 1], cfg) + FramesOf(lives[|lives| - 1], cfg)
  }

  function FramesOfLives(l: Lives, cfg: Config): seq<Bytes>
    requires cfg.frame > 0
  {
    FramesOfEach(l.over, cfg) + (if l.isOpen then FramesOf(l.present, cfg) else [])
  }

  ghost predicate Traces(l: Lives, conns: map<Token, Conn>, cfg: Config, t: Token)
    requires cfg.frame > 0
  {
    && (l.isOpen <==> t in conns)
    && (l.isOpen ==> conns[t].inbound == ReceiveAll(NewInbound(cfg), l.present, cfg))
  }

  /** One read adds its fresh frames to those of the present connection. */
  lemma ReadAddsFresh(c: Conn, arrived: seq<Bytes>, result: ReadResult, cfg: Config)
    requires cfg.frame > 0 && InboundOk(c.inbound, cfg)
    requires c.inbound == ReceiveAll(NewInbound(cfg), arrived, cfg)
    ensures
      && Absorb(c, result, cfg).inbound == ReceiveAll(NewInbound(cfg), With(arrived, result), cfg)
      && FramesOf(With(arrived, result), cfg) == FramesOf(arrived, cfg) + Fresh(c, result, cfg)
  {
    if result.Got? { ReceiveOneMore(NewInbound(cfg), arrived, result.bytes, cfg); }
  }

  lemma HandleTraces(conns: map<Token, Conn>, l: Lives, e: Event, cfg: Config, t: Token)
    requires TableOk(conns, cfg) && Traces(l, conns, cfg, t)
    ensures Traces(Live(l, e, t), Handle(conns, e, cfg), cfg, t)
  {
    if e.Readable? && e.token == t && t in conns { ReadAddsFresh(conns[t], l.present, e.result, cfg); }
  }

  lemma ReadSends(l: Lives, e: Event, delivered: seq<Bytes>, cfg: Config, t: Token)
    requires cfg.frame > 0 && e.Readable? && e.token == t && l.isOpen
    requires FramesOf(With(l.present, e.result), cfg) == FramesOf(l.present, cfg) + delivered
    ensures FramesOfLives(Live(l, e, t), cfg) == FramesOfLives(l, cfg) + delivered
  {
    var arrived := With(l.present, e.result);
    assert (l.over + [arrived])[..|l.over|] == l.over;
    Regrouped(FramesOfEach(l.over, cfg), FramesOf(l.present, cfg), delivered);
    assert FramesOfEach(l.over + [arrived], cfg) == FramesOfEach(l.over, cfg) + FramesOf(arrived, cfg);
    assert FramesOfLives(Live(l, e, t), cfg) == FramesOfEach(l.over, cfg) + FramesOf(arrived, cfg);
  }

  lemma StepSends(conns: map<Token, Conn>, l: Lives, e: Event, cfg: Config, t: Token)
    requires TableOk(conns, cfg) && Traces(l, conns, cfg, t)
    ensures FramesOfLives(Live(l, e, t), cfg) == FramesOfLives(l, cfg) + From(Sends(conns, e, cfg), t)
  {
    if e.Readable? && e.token in conns {
      var delivered := Fresh(conns[e.token], e.result, cfg);
      FromTagged(delivered, e.token, t);
      if e.token == t {
        ReadAddsFresh(conns[t], l.present, e.result, cfg);
        ReadSends(l, e, delivered, cfg, t);
      }
    }
  }

  lemma {:induction false} RunSends(conns: map<Token, Conn>, l: Lives, events: seq<Event>, cfg: Config, t: Token)
    requires TableOk(conns, cfg) && Traces(l, conns, cfg, t)
    ensures FramesOfLives(LiveAll(l, events, t), cfg) == FramesOfLives(l, cfg) + From(Channel(conns, events, cfg), t)
    decreases |events|
  {
    if events == [] {
      assert FramesOfLives(l, cfg) + [] == FramesOfLives(l, cfg);
    } else {
      var conns', rest := Handle(conns, events[0], cfg), events[1..];
      var now, later := Sends(conns, events[0], cfg), Channel(conns', rest, cfg);
      StepSends(conns, l, events[0], cfg, t);
      HandleTraces(conns, l, events[0], cfg, t);
      RunSends(conns', Live(l, events[0], t), rest, cfg, t);
      FromAppend(now, later, t);
      Regrouped(FramesOfLives(l, cfg), From(now, t), From(later, t));
    }
  }

  /** In every run the frames tagged with a token are, in order, those of the connections it named:
      each delivers what its own arrivals amount to, the last read before a hang-up included, whatever
      happened on other tokens in between. */
  lemma ChannelCarriesEveryLife(events: seq<Event>, cfg: Config, t: Token)
    requires cfg.frame > 0
    ensures
      From(Channel(map[], events, cfg), t) == FramesOfLives(LiveAll(Lives([], false, []), events, t), cfg)
  {
    RunSends(map[], Lives([], false, []), events, cfg, t);
  }
}
