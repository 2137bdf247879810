/** Chains of subscribers as values, and what pushing one item or a completion through a chain does. */
module Reactive {

  const U64: nat := 0x1_0000_0000_0000_0000

  type Count = n: nat | n < U64

  /** Everything that flows through a chain: plain items and pairs of items. */
  datatype Val = Atom(n: int) | Pair(fst: Val, snd: Val)

  /** The typed source only ever sends pairs to `Unzip`; an atom stands for itself twice. */
  function First(v: Val): Val { if v.Pair? then v.fst else v }
  function Second(v: Val): Val { if v.Pair? then v.snd else v }

  /** One call on a subscriber. */
  datatype Signal = Next(v: Val) | Complete

  /** A subscriber's own state: ten processors and two sinks. `seen` and `printed` record what a
      closure was applied to and what was printed; `sent` is what the receiving end of the queue has
      been sent, `open` whether that end still exists. */
  datatype Op =
    | Map(f: Val -> Val)
    | MapVal1(g: (Val, Val) -> Val, val: Val)
    | Reduce(h: (Val, Val) -> (Val, Val), state: Val)
    | Enumerate(count: Count)
    | Tee(sent: seq<Val>, open: bool)
    | Unzip
    | Take(taken: nat, max: nat, notified: bool)
    | Do(seen: seq<Val>)
    | DoDebug(printed: seq<Val>)
    | DebugWhile(p: Val -> bool, printed: seq<Val>)
    | Collect(items: seq<Val>)
    | Decoupler(sent: seq<Val>, open: bool)

  predicate IsSink(op: Op) { op.Collect? || op.Decoupler? }

  /** A subscriber with everything it feeds. `Loose` is the empty subscriber slot; a sink has no slot
      and leaves it loose. `heard` lists the calls received so far. */
  datatype Chain = Loose | Link(op: Op, heard: seq<Signal>, next: Chain)

  function Depth(c: Chain): nat {
    match c
    case Loose => 0
    case Link(_, _, next) => 1 + Depth(next)
  }

  /** Keep going, stop, or a panic that unwinds. */
  datatype Reply = Keep | Stop | Panic

  datatype Pushed = Pushed(chain: Chain, reply: Reply)

  /** The state of a processor that is not `Unzip` or `Take` after one item, and the item it sends on. */
  function After(op: Op, x: Val): Op {
    match op
    case Reduce(h, state) => Reduce(h, h(state, x).0)
    case Enumerate(count) => Enumerate((count + 1) % U64)
    case Tee(sent, open) => if open then Tee(sent + [x], open) else op
    case Do(seen) => Do(seen + [x])
    case DoDebug(printed) => DoDebug(printed + [x])
    case DebugWhile(p, printed) => if p(x) then DebugWhile(p, printed + [x]) else op
    case _ => op
  }

  function Onward(op: Op, x: Val): Val {
    match op
    case Map(f) => f(x)
    case MapVal1(g, val) => g(x, val)
    case Reduce(h, state) => h(state, x).1
    case Enumerate(count) => Pair(x, Atom(count))
    case _ => x
  }

  /** `on_complete`: every processor passes it on, and panics when it has no subscriber. */
  function OnComplete(c: Chain): (r: Pushed)
    requires c.Link?
    ensures r.chain.Link? && Depth(r.chain) == Depth(c)
  {
    var heard := c.heard + [Complete];
    if IsSink(c.op) then Pushed(c.(heard := heard), Keep)
    else if c.next.Loose? then Pushed(c.(heard := heard), Panic)
    else
      var r := OnComplete(c.next);
      Pushed(Link(c.op, heard, r.chain), r.reply)
  }

  /** `on_next`, one case per implementation. */
  function OnNext(c: Chain, x: Val): (r: Pushed)
    requires c.Link?
    ensures r.chain.Link? && Depth(r.chain) == Depth(c)
    decreases Depth(c)
  {
    var heard := c.heard + [Next(x)];
    match c.op
    case Collect(items) => Pushed(Link(Collect(items + [x]), heard, c.next), Keep)
    case Decoupler(sent, open) =>
      if open then Pushed(Link(Decoupler(sent + [x], open), heard, c.next), Keep)
      else Pushed(c.(heard := heard), Stop)
    case Reduce(_, _) =>
      if c.next.Loose? then Pushed(Link(After(c.op, x), heard, c.next), Keep)
      else
        var r := OnNext(c.next, Onward(c.op, x));
        Pushed(Link(After(c.op, x), heard, r.chain), r.reply)
    case Unzip =>
      if c.next.Loose? then Pushed(c.(heard := heard), Keep)
      else
        var a := OnNext(c.next, First(x));
        if a.reply.Panic? then Pushed(Link(c.op, heard, a.chain), Panic)
        else
          var b := OnNext(a.chain, Second(x));
          Pushed(Link(c.op, heard, b.chain),
                 if b.reply.Panic? then Panic else if a.reply.Keep? || b.reply.Keep? then Keep else Stop)
    case Take(taken, max, notified) =>
      if c.next.Loose? then Pushed(c.(heard := heard), Keep)
      else if taken + 1 > max then
        var r := OnComplete(c.next);
        if r.reply.Panic? then Pushed(Link(Take(taken + 1, max, notified), heard, r.chain), Panic)
        else Pushed(Link(Take(taken + 1, max, true), heard, r.chain), Stop)
      else
        var r := OnNext(c.next, x);
        Pushed(Link(Take(taken + 1, max, notified), heard, r.chain), r.reply)
    case _ =>
      if c.next.Loose? then Pushed(c.(heard := heard), Keep)
      else
        var r := OnNext(c.next, Onward(c.op, x));
        Pushed(Link(After(c.op, x), heard, r.chain), r.reply)
  }

  /** A finished or interrupted `run`: the chain, how many items were pulled, and whether it panicked. */
  datatype Ran = Ran(chain: Chain, pulled: nat, reply: Reply)

  /** `run` of an iterator publisher: push items until told to stop, complete when they run out. */
  function Run(c: Chain, src: seq<Val>): Ran
    requires c.Link?
    decreases |src|
  {
    if src == [] then
      var r := OnComplete(c);
      Ran(r.chain, 0, if r.reply.Panic? then Panic else Stop)
    else
      var r := OnNext(c, src[0]);
      if r.reply.Keep? then
        var more := Run(r.chain, src[1..]);
        more.(pulled := more.pulled + 1)
      else Ran(r.chain, 1, r.reply)
  }

  /** The queue, the chain and the reply after one `try_next` of a coupler. */
  datatype Drawn = Drawn(queue: seq<Val>, chain: Chain, reply: Reply)

  function Poll(queue: seq<Val>, senderAlive: bool, c: Chain): (d: Drawn)
    requires c.Link?
    ensures d.chain.Link?
  {
    if queue != [] then
      var r := OnNext(c, queue[0]);
      Drawn(queue[1..], r.chain, r.reply)
    else if senderAlive then Drawn(queue, c, Keep)
    else
      var r := OnComplete(c);
      Drawn(queue, r.chain, if r.reply.Panic? then Panic else Stop)
  }
}
