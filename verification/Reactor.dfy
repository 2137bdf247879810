/** The reactor's table of connections and its three event handlers. */
module Reactor {
  import opened Protocol
  import opened ReadSide
  import opened WriteSide

  type Token = nat

  datatype Interest = READABLE | WRITABLE | HUP

  /** What one `read` on a socket reports. */
  datatype ReadResult = Got(bytes: Bytes) | NothingToRead | ReadFailed

  /** The value of a connection. `answers` is how its socket will respond to writes, `interest` is the
      connection's own flag set, `registered` what the event loop was last told. */
  datatype Conn = Conn(
    inbound: Inbound, outbound: Outbound, answers: Answers, interest: set<Interest>, registered: set<Interest>)

  /** A delivered frame with the token of the connection it came from. */
  datatype ProtoMsg = ProtoMsg(item: Bytes, token: Token)

  function Tagged(frames: seq<Bytes>, t: Token): seq<ProtoMsg> {
    seq(|frames|, i requires 0 <= i < |frames| => ProtoMsg(frames[i], t))
  }

  /** `Open` is an accept or a connect that produced a fresh token; the other three are the handlers.
      `hup` is the hang-up hint of a readable event. */
  datatype Event =
    | Open(token: Token, accepted: bool, answers: Answers)
    | Notify(token: Token, msg: Bytes)
    | Writable(token: Token)
    | Readable(token: Token, result: ReadResult, hup: bool)

  function NewConn(accepted: bool, answers: Answers, cfg: Config): Conn {
    Conn(NewInbound(cfg), Outbound([], [], 0), answers, {HUP}, if accepted then {READABLE, HUP} else {READABLE})
  }

  /** Drain, and ask to hear when the socket is writable if something is left. */
  function Flush(c: Conn): Conn {
    var o := Drain(c.outbound, c.answers);
    if o.queue == [] then c.(outbound := o)
    else c.(outbound := o, interest := c.interest + {WRITABLE}, registered := c.interest + {WRITABLE})
  }

  function Enqueue(c: Conn, msg: Bytes): Conn {
    c.(outbound := c.outbound.(queue := c.outbound.queue + [msg]))
  }

  function Absorb(c: Conn, result: ReadResult, cfg: Config): Conn
    requires cfg.frame > 0 && InboundOk(c.inbound, cfg)
  {
    if result.Got? && |result.bytes| <= c.inbound.room
    then c.(inbound := Receive(c.inbound, result.bytes, cfg))
    else c
  }

  function AskReadable(c: Conn): Conn {
    c.(interest := c.interest + {READABLE}, registered := c.interest + {READABLE})
  }

  ghost predicate TableOk(conns: map<Token, Conn>, cfg: Config) {
    cfg.frame > 0 && forall t :: t in conns ==> InboundOk(conns[t].inbound, cfg)
  }

  /** The effect of one event on the whole table. */
  function Handle(conns: map<Token, Conn>, e: Event, cfg: Config): (r: map<Token, Conn>)
    requires TableOk(conns, cfg)
    ensures TableOk(r, cfg)
  {
    match e
    case Open(t, accepted, answers) =>
      if t in conns then conns else conns[t := NewConn(accepted, answers, cfg)]
    case Notify(t, msg) => if t in conns then conns[t := Flush(Enqueue(conns[t], msg))] else conns
    case Writable(t) => if t in conns then conns[t := Flush(conns[t])] else conns
    case Readable(t, result, hup) =>
      if t !in conns then conns
      else if hup then conns - {t}
      else conns[t := AskReadable(Absorb(conns[t], result, cfg))]
  }

  /** The frames `c` hands over when it takes in the outcome of a read. */
  function Fresh(c: Conn, result: ReadResult, cfg: Config): seq<Bytes>
    requires cfg.frame > 0 && InboundOk(c.inbound, cfg)
  {
    Absorb(c, result, cfg).inbound.delivered[|c.inbound.delivered|..]
  }

  /** What one event puts on the channels: the frames of a read, also of the last before a hang-up. */
  function Sends(conns: map<Token, Conn>, e: Event, cfg: Config): seq<ProtoMsg>
    requires TableOk(conns, cfg)
  {
    if e.Readable? && e.token in conns then Tagged(Fresh(conns[e.token], e.result, cfg), e.token) else []
  }

  lemma ReplaceKeepsTable(conns: map<Token, Conn>, t: Token, c: Conn, cfg: Config)
    requires TableOk(conns, cfg) && InboundOk(c.inbound, cfg)
    ensures TableOk(conns[t := c], cfg)
  {
  }

  /** A readable event is a read followed by a removal or a re-registration. */
  lemma ReadableInTwo(conns: map<Token, Conn>, t: Token, result: ReadResult, hup: bool, cfg: Config)
    requires TableOk(conns, cfg) && t in conns
    ensures
      var c := Absorb(conns[t], result, cfg);
      var e := Event.Readable(t, result, hup);
      && Handle(conns, e, cfg) == (if hup then conns[t := c] - {t} else conns[t := c][t := AskReadable(c)])
      && Sends(conns, e, cfg) == Tagged(Fresh(conns[t], result, cfg), t)
  {
  }

  // ---- the objects ----

  /** The append-only read buffer: bytes up to `filled` are fixed, the rest is the free window. */
  class ReadBuf {
    const store: array<Byte>
    var filled: nat

    ghost predicate Valid() reads this { filled <= store.Length }

    ghost function Contents(): Bytes
      requires Valid()
      reads this, store
    {
      store[..filled]
    }

    constructor (capacity: nat)
      ensures Valid() && fresh(store) && store.Length == capacity && filled == 0 && Contents() == []
    {
      store := new Byte[capacity];
      filled := 0;
    }

    method Fill(bytes: Bytes)
      requires Valid() && filled + |bytes| <= store.Length
      modifies this, store
      ensures Valid() && filled == old(filled) + |bytes|
      ensures Contents() == old(Contents()) + bytes
    {
      ghost var before := Contents();
      for i := 0 to |bytes|
        invariant filled == old(filled) + i && filled <= store.Length
        invariant store[..filled] == before + bytes[..i]
      {
        store[filled] := bytes[i];
        filled := filled + 1;
        assert store[..filled] == store[..filled - 1] + [bytes[i]];
        assert bytes[..i + 1] == bytes[..i] + [bytes[i]];
      }
      assert bytes[..|bytes|] == bytes;
    }
  }

  class Socket {
    const answers: Answers
    var wire: Bytes
    var writes: nat

    constructor (answers: Answers)
      ensures this.answers == answers && wire == [] && writes == 0
    {
      this.answers := answers;
      wire := [];
      writes := 0;
    }

    method Write(bytes: Bytes) returns (r: WriteResult)
      modifies this
      ensures writes == old(writes) + 1
      ensures var a := answers(old(writes));
        if a.Ready? then r == Ready(Least(a.n, |bytes|)) && wire == old(wire) + bytes[..r.n]
        else r == a && wire == old(wire)
    {
      r := answers(writes);
      if r.Ready? {
        r := Ready(Least(r.n, |bytes|));
        wire := wire + bytes[..r.n];
      }
      writes := writes + 1;
    }
  }

  class Connection {
    const sock: Socket
    var outbuf: seq<Bytes>
    var interest: set<Interest>
    var registered: set<Interest>
    var delivered: seq<Bytes>
    var marker: nat
    var buf: ReadBuf

    ghost predicate Valid(cfg: Config)
      reads Footprint()
    {
      && buf.Valid() && buf.store.Length == cfg.readBufSize && marker <= buf.filled
      && buf as object != this && buf as object != sock && sock as object != this
      && buf.store as object != this && buf.store as object != sock && buf.store as object != buf
    }

    ghost function Footprint(): set<object>
      reads this
    {
      {this, sock, buf, buf.store}
    }

    ghost function Sending(): Outbound
      reads this, sock
    {
      Outbound(outbuf, sock.wire, sock.writes)
    }

    ghost function Receiving(): Inbound
      requires buf.Valid()
      reads this, buf, buf.store
    {
      Inbound(buf.Contents(), buf.store.Length - buf.filled, marker, delivered)
    }

    ghost function Model(): Conn
      requires buf.Valid()
      reads this, sock, buf, buf.store
    {
      Conn(Receiving(), Sending(), sock.answers, interest, registered)
    }

    constructor (s: Socket, accepted: bool, cfg: Config)
      requires s.wire == [] && s.writes == 0
      ensures Valid(cfg) && Model() == NewConn(accepted, s.answers, cfg)
      ensures fresh(Footprint() - {s}) && sock == s
    {
      sock := s;
      outbuf := [];
      interest := {HUP};
      registered := if accepted then {READABLE, HUP} else {READABLE};
      delivered := [];
      marker := 0;
      buf := new ReadBuf(cfg.readBufSize);
    }

    method DrainWriteQueueToSocket() returns (left: nat)
      modifies `outbuf, sock
      ensures Sending() == Drain(old(Sending()), sock.answers)
      ensures left == |outbuf|
    {
      var writable := true;
      ghost var goal := Drain(Sending(), sock.answers);
      while writable && |outbuf| > 0
        invariant goal == if writable then Drain(Sending(), sock.answers) else Sending()
        decreases writable, Work(Sending()), Patience(sock.answers, sock.writes)
      {
        ghost var before := Sending();
        var front := outbuf[0];
        var result := sock.Write(front);
        match result {
          case Ready(n) =>
            ReadyTurnAdvances(before, sock.answers);
            outbuf := if n == |front| then outbuf[1..] else outbuf[0 := front[n..]];
            assert Sending() == WriteFront(before, sock.answers(before.writes));
          case _ =>
            writable := false;
        }
      }
      left := |outbuf|;
    }

    /** The part of `writable` and `notify` that follows finding the connection. */
    method FlushAndRegister(cfg: Config)
      requires Valid(cfg)
      modifies this, sock
      ensures Footprint() == old(Footprint())
      ensures Valid(cfg) && Model() == Flush(old(Model()))
    {
      var left := DrainWriteQueueToSocket();
      if left > 0 {
        interest := interest + {WRITABLE};
        registered := interest;
      }
    }

    method Post(msg: Bytes, cfg: Config)
      requires Valid(cfg)
      modifies this, sock
      ensures Footprint() == old(Footprint())
      ensures Valid(cfg) && Model() == Flush(Enqueue(old(Model()), msg))
    {
      outbuf := outbuf + [msg];
      FlushAndRegister(cfg);
    }

    /** The append loop: hand frames to the channel while the protocol finds one in the slice. */
    method CutFrames(slice: Bytes, size: nat) returns (left: Bytes)
      requires size > 0
      modifies `delivered, `marker
      ensures delivered == old(delivered) + Chunks(slice, size)
      ensures marker == old(marker) + size * |Chunks(slice, size)|
      ensures left == Rest(slice, size)
    {
      ghost var frames := Chunks(slice, size);
      ghost var k := 0;
      left := slice;
      while true
        invariant k <= |frames| && frames[k..] == Chunks(left, size)
        invariant Rest(left, size) == Rest(slice, size)
        invariant delivered == old(delivered) + frames[..k] && marker == old(marker) + size * k
        decreases |left|
      {
        match Append(left, size) {
          case None => break;
          case Some(Parsed(item, remaining, consumed)) =>
            delivered := delivered + [item];
            left := remaining;
            marker := marker + consumed;
            Distribute(size, k, 1);
            assert frames[..k + 1] == frames[..k] + [frames[k]];
            k := k + 1;
        }
      }
    }

    /** Start a new buffer with the leftover of the last slice. */
    method Rollover(left: Bytes, cfg: Config)
      requires |left| <= cfg.readBufSize
      modifies `buf, `marker
      ensures fresh(buf) && fresh(buf.store) && buf.Valid() && buf.store.Length == cfg.readBufSize
      ensures buf.Contents() == left && buf.filled == |left| && marker == 0
      ensures buf.store as object != buf
    {
      var newbuf := new ReadBuf(cfg.readBufSize);
      if |left| > 0 { newbuf.Fill(left); }
      buf := newbuf;
      marker := 0;
    }

    /** Take in the bytes and cut frames off the slice of this read. */
    method CutRead(bytes: Bytes, cfg: Config) returns (left: Bytes)
      requires Valid(cfg) && cfg.frame > 0 && |bytes| <= buf.store.Length - buf.filled
      modifies `delivered, `marker, buf, buf.store
      ensures buf.Valid() && buf.filled == old(buf.filled) + |bytes|
      ensures buf.Contents() == old(buf.Contents()) + bytes
      ensures
        var slice := buf.Contents()[old(marker)..old(marker) + |bytes|];
        && delivered == old(delivered) + Chunks(slice, cfg.frame) && left == Rest(slice, cfg.frame)
        && marker == old(marker) + cfg.frame * |Chunks(slice, cfg.frame)| <= buf.filled && |left| <= |bytes|
    {
      buf.Fill(bytes);
      var abuf := buf.store[marker..marker + |bytes|];
      assert abuf == buf.Contents()[marker..marker + |bytes|];
      ChunksPartition(abuf, cfg.frame);
      left := CutFrames(abuf, cfg.frame);
    }

    /** The `Ready` arm of `readable`: take in the bytes, cut off the frames, and replace the buffer when
        its window is small. */
    method TakeIn(bytes: Bytes, cfg: Config)
      requires Valid(cfg) && cfg.frame > 0 && |bytes| <= buf.store.Length - buf.filled
      modifies this, buf, buf.store
      ensures Valid(cfg) && Model() == Absorb(old(Model()), Got(bytes), cfg)
      ensures fresh(Footprint() - old(Footprint()))
    {
      ghost var before := Receiving();
      var left := CutRead(bytes, cfg);
      if buf.store.Length - buf.filled < cfg.minReadBufSize {
        Rollover(left, cfg);
      }
      assert Receiving() == Receive(before, bytes, cfg);
    }

    /** `frames` are those put on the channel. */
    method Accept(result: ReadResult, cfg: Config) returns (frames: seq<Bytes>)
      requires Valid(cfg) && cfg.frame > 0
      requires result.Got? ==> |result.bytes| <= buf.store.Length - buf.filled
      modifies Footprint()
      ensures Valid(cfg) && Model() == Absorb(old(Model()), result, cfg)
      ensures frames == Fresh(old(Model()), result, cfg)
      ensures fresh(Footprint() - old(Footprint()))
    {
      var known := |delivered|;
      match result {
        case Got(bytes) => TakeIn(bytes, cfg);
        case _ =>
      }
      frames := delivered[known..];
    }

    method Rearm(cfg: Config)
      requires Valid(cfg)
      modifies this
      ensures Footprint() == old(Footprint())
      ensures Valid(cfg) && Model() == AskReadable(old(Model()))
    {
      interest := interest + {READABLE};
      registered := interest;
    }
  }

  /** `sent` is everything put on the channels so far, `table` the value of `conns`, and `Repr` holds
      every object behind it. */
  class Engine {
    const config: Config
    var conns: map<Token, Connection>
    var sent: seq<ProtoMsg>
    ghost var table: map<Token, Conn>
    ghost var Repr: set<object>

    /** The connection behind `t` is consistent, lies inside the engine's objects and has its value
        in the table. */
    ghost predicate Hosts(t: Token)
      reads `conns, `table, `Repr, Repr
    {
      && t in conns && t in table && conns[t] in Repr && conns[t].Footprint() <= Repr
      && conns[t].Valid(config) && conns[t].Model() == table[t]
    }

    /** Two tokens share no object. */
    ghost predicate Apart(t: Token, u: Token)
      requires Hosts(t) && Hosts(u)
      reads `conns, `table, `Repr, Repr
    {
      conns[t].Footprint() !! conns[u].Footprint()
    }

    ghost predicate Valid()
      reads `conns, `table, `Repr, Repr
    {
      && config.frame > 0 && this !in Repr && conns.Keys == table.Keys && TableOk(table, config)
      && (forall t {:trigger Hosts(t)} :: t in conns ==> Hosts(t))
      && (forall t, u {:trigger Apart(t, u)} :: Hosts(t) && Hosts(u) && t != u ==> Apart(t, u))
    }

    constructor (cfg: Config)
      requires cfg.frame > 0
      ensures Valid() && config == cfg && table == map[] && sent == []
    {
      config := cfg;
      conns := map[];
      sent := [];
      table := map[];
      Repr := {};
    }

    /** A connection none of whose objects changed still means what it meant. */
    twostate lemma Kept(t: Token)
      requires old(Hosts(t)) && t in conns && conns[t] == old(conns[t]) && old(Repr) <= Repr
      requires t in table && table[t] == old(table[t])
      requires forall o: object :: o in old(conns[t].Footprint()) ==> unchanged(o)
      ensures Hosts(t) && conns[t].Footprint() == old(conns[t].Footprint())
    {
    }

    /** Where one connection only was touched, the others mean what they meant. */
    twostate lemma OthersKept(token: Token)
      requires old(Valid()) && token in old(conns) && conns == old(conns)
      requires Repr == old(Repr) + conns[token].Footprint()
      requires forall o: object :: o in old(Repr) && o !in old(conns[token].Footprint()) ==> unchanged(o)
      requires table.Keys == old(table).Keys && forall t :: t in table && t != token ==> table[t] == old(table)[t]
      ensures forall t {:trigger Hosts(t)} :: t in conns && t != token ==>
        Hosts(t) && conns[t].Footprint() == old(conns[t].Footprint())
    {
      assert old(Hosts(token));
      forall t | t in conns && t != token
        ensures Hosts(t) && conns[t].Footprint() == old(conns[t].Footprint())
      {
        assert old(Hosts(t) && Apart(t, token));
        Kept(t);
      }
    }

    /** A handler that touched one connection only left the rest of the table as it was. */
    twostate lemma OneMoved(token: Token)
      requires old(Valid()) && token in old(conns) && conns == old(conns)
      requires Repr == old(Repr) + conns[token].Footprint()
      requires forall o: object :: o in old(Repr) && o !in old(conns[token].Footprint()) ==> unchanged(o)
      requires conns[token].Valid(config) && fresh(conns[token].Footprint() - old(conns[token].Footprint()))
      requires this !in conns[token].Footprint()
      requires table == old(table)[token := conns[token].Model()]
      ensures Valid()
    {
      ReplaceKeepsTable(old(table), token, conns[token].Model(), config);
      assert old(Hosts(token));
      OthersKept(token);
      forall t, u | Hosts(t) && Hosts(u) && t != u ensures Apart(t, u) {
        assert old(Hosts(t) && Hosts(u) && Apart(t, u));
      }
    }

    /** A connection made of new objects joined the table. */
    twostate lemma OneJoined(token: Token)
      requires old(Valid()) && token !in old(conns) && token in conns && conns == old(conns)[token := conns[token]]
      requires Repr == old(Repr) + conns[token].Footprint()
      requires forall o: object :: o in old(Repr) ==> unchanged(o)
      requires conns[token].Valid(config) && fresh(conns[token].Footprint()) && this !in conns[token].Footprint()
      requires table == old(table)[token := conns[token].Model()]
      ensures Valid()
    {
      ReplaceKeepsTable(old(table), token, conns[token].Model(), config);
      forall t | t in conns && t != token
        ensures Hosts(t) && conns[t].Footprint() == old(conns[t].Footprint())
      {
        assert old(Hosts(t));
        Kept(t);
      }
      forall t, u | Hosts(t) && Hosts(u) && t != u ensures Apart(t, u) {
        if t == token {
          assert old(Hosts(u));
        } else if u == token {
          assert old(Hosts(t));
        } else {
          assert old(Hosts(t) && Hosts(u) && Apart(t, u));
        }
      }
    }

    /** Accepting a socket, or connecting one, under a token the table handed out. */
    method Open(token: Token, accepted: bool, answers: Answers)
      requires Valid() && token !in conns
      modifies `conns, `table, `Repr
      ensures Valid() && table == Handle(old(table), Event.Open(token, accepted, answers), config)
    {
      var s := new Socket(answers);
      var c := new Connection(s, accepted, config);
      conns := conns[token := c];
      Repr := Repr + c.Footprint();
      table := table[token := NewConn(accepted, answers, config)];
      OneJoined(token);
    }

    method Notify(token: Token, msg: Bytes)
      requires Valid()
      modifies `table, `Repr, if token in conns then conns[token].Footprint() else {}
      ensures Valid() && table == Handle(old(table), Event.Notify(token, msg), config)
      ensures sent == old(sent)
    {
      if token in conns { PostTo(token, msg); }
    }

    method PostTo(token: Token, msg: Bytes)
      requires Valid() && token in conns
      modifies `table, `Repr, conns[token].Footprint()
      ensures Valid() && table == old(table)[token := Flush(Enqueue(old(table)[token], msg))]
      ensures sent == old(sent)
    {
      assert Hosts(token);
      var c := conns[token];
      c.Post(msg, config);
      Record(token, Flush(Enqueue(table[token], msg)));
      OneMoved(token);
    }

    /** The ghost fields after the connection behind `token` took the value `c`. */
    ghost method Record(token: Token, c: Conn)
      requires token in conns
      modifies `table, `Repr
      ensures table == old(table)[token := c] && Repr == old(Repr) + conns[token].Footprint()
    {
      Repr := Repr + conns[token].Footprint();
      table := table[token := c];
    }

    method Writable(token: Token)
      requires Valid()
      modifies `table, `Repr, if token in conns then conns[token].Footprint() else {}
      ensures Valid() && table == Handle(old(table), Event.Writable(token), config)
      ensures sent == old(sent)
    {
      if token in conns { WriteTo(token); }
    }

    method WriteTo(token: Token)
      requires Valid() && token in conns
      modifies `table, `Repr, conns[token].Footprint()
      ensures Valid() && table == old(table)[token := Flush(old(table)[token])]
      ensures sent == old(sent)
    {
      assert Hosts(token);
      var c := conns[token];
      c.FlushAndRegister(config);
      Record(token, Flush(table[token]));
      OneMoved(token);
    }

    /** The kernel put the bytes into the free window, so there are never more than it holds. */
    ghost predicate Fits(token: Token, result: ReadResult)
      requires Valid()
      reads `conns, `table, `Repr, Repr
    {
      token in conns && result.Got? ==>
        assert Hosts(token);
        |result.bytes| <= conns[token].buf.store.Length - conns[token].buf.filled
    }

    method ReadInto(token: Token, result: ReadResult) returns (frames: seq<Bytes>)
      requires Valid() && token in conns && Fits(token, result)
      modifies `table, `Repr, conns[token].Footprint()
      ensures Valid() && table == old(table)[token := Absorb(old(table)[token], result, config)]
      ensures frames == Fresh(old(table)[token], result, config) && sent == old(sent)
      ensures fresh(conns[token].Footprint() - old(conns[token].Footprint()))
    {
      assert Hosts(token);
      var c := conns[token];
      frames := c.Accept(result, config);
      Record(token, c.Model());
      OneMoved(token);
    }

    /** Read, and put the frames on the channel under the token. */
    method Deliver(token: Token, result: ReadResult)
      requires Valid() && token in conns && Fits(token, result)
      modifies `sent, `table, `Repr, conns[token].Footprint()
      ensures Valid() && table == old(table)[token := Absorb(old(table)[token], result, config)]
      ensures sent == old(sent) + Tagged(Fresh(old(table)[token], result, config), token)
      ensures fresh(conns[token].Footprint() - old(conns[token].Footprint()))
    {
      var frames := ReadInto(token, result);
      sent := sent + Tagged(frames, token);
    }

    method Reregister(token: Token)
      requires Valid() && token in conns
      modifies `table, `Repr, conns[token].Footprint()
      ensures Valid() && table == old(table)[token := AskReadable(old(table)[token])]
      ensures sent == old(sent)
    {
      assert Hosts(token);
      var c := conns[token];
      c.Rearm(config);
      Record(token, AskReadable(table[token]));
      OneMoved(token);
    }

    method Remove(token: Token)
      requires Valid()
      modifies `conns, `table
      ensures Valid() && table == old(table) - {token}
    {
      conns := conns - {token};
      table := table - {token};
      forall t | t in conns
        ensures Hosts(t) && conns[t].Footprint() == old(conns[t].Footprint())
      {
        assert old(Hosts(t));
        Kept(t);
      }
      forall t, u | Hosts(t) && Hosts(u) && t != u ensures Apart(t, u) {
        assert old(Hosts(t) && Hosts(u) && Apart(t, u));
      }
    }

    method Readable(token: Token, result: ReadResult, hup: bool)
      requires Valid() && Fits(token, result)
      modifies this, if token in conns then conns[token].Footprint() else {}
      ensures Valid() && table == Handle(old(table), Event.Readable(token, result, hup), config)
      ensures sent == old(sent) + Sends(old(table), Event.Readable(token, result, hup), config)
    {
      if token in conns {
        ReadableInTwo(table, token, result, hup, config);
        Deliver(token, result);
        if hup { Remove(token); } else { Reregister(token); }
      }
    }
  }
}
