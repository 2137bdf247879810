/** The publishers that drive a chain: from an iterator, from a queue, and from one repeated value. */
module Publishers {
  import opened Reactive
  import opened Pipelines
  import opened PipelineRuns
  import opened Processors

  /** Drives a chain from an iterator; `iter` is what the iterator has left. */
  class IterPublisher {
    var iter: seq<Val>
    var subscriber: Subscriber?

    constructor (iter: seq<Val>)
      ensures this.iter == iter && subscriber == null
    {
      this.iter := iter;
      subscriber := null;
    }

    ghost predicate Valid()
      reads this, if subscriber == null then {} else {subscriber} + subscriber.Repr
    {
      subscriber != null ==> subscriber.Valid() && this !in subscriber.Repr
    }

    method Subscribe(s: Subscriber)
      requires s.Valid() && this !in s.Repr
      modifies this
      ensures Valid() && subscriber == s && iter == old(iter)
    {
      subscriber := s;
    }

    method Next() returns (r: Reply)
      requires Valid()
      modifies this, if subscriber == null then {} else subscriber.Repr
      ensures Valid() && subscriber == old(subscriber)
      ensures subscriber == null ==> r == Stop && iter == old(iter)
      ensures subscriber != null ==> subscriber.Repr == old(subscriber.Repr)
      ensures subscriber != null && old(iter) != [] ==>
        && iter == old(iter)[1..]
        && Pushed(subscriber.Model(), r) == Reactive.OnNext(old(subscriber.Model()), old(iter)[0])
      ensures subscriber != null && old(iter) == [] ==>
        && iter == [] && subscriber.Model() == Reactive.OnComplete(old(subscriber.Model())).chain
        && r == if Reactive.OnComplete(old(subscriber.Model())).reply.Panic? then Panic else Stop
    {
      if subscriber == null { return Stop; }
      if iter == [] {
        r := subscriber.OnComplete();
        if r.Keep? { r := Stop; }
      } else {
        var x := iter[0];
        iter := iter[1..];
        r := subscriber.OnNext(x);
      }
    }

    /** The `run` loop: call `next` until it says stop, or a panic unwinds through it. */
    method Run() returns (r: Reply)
      requires Valid()
      modifies this, if subscriber == null then {} else subscriber.Repr
      ensures subscriber == null ==> r == Stop && iter == old(iter)
      ensures old(subscriber) != null ==>
        var ran := Reactive.Run(old(subscriber.Model()), old(iter));
        && Valid() && subscriber == old(subscriber)
        && subscriber.Model() == ran.chain && r == ran.reply
        && ran.pulled <= |old(iter)| && iter == old(iter)[ran.pulled..]
      ensures old(subscriber) != null && Wired(old(subscriber.Model())) && Accepts(old(subscriber.Model())) ==>
        && r == Stop && Wired(subscriber.Model())
        && Output(subscriber.Model()) == Output(old(subscriber.Model())) + Denote(old(subscriber.Model()), old(iter))
    {
      if subscriber != null && Wired(subscriber.Model()) && Accepts(subscriber.Model()) {
        RunComputes(subscriber.Model(), iter);
      }
      ghost var pulled := 0;
      ghost var goal := if subscriber == null then Ran(Loose, 0, Stop) else Reactive.Run(subscriber.Model(), iter);
      r := Keep;
      while r.Keep?
        invariant Valid() && subscriber == old(subscriber)
        invariant subscriber == null ==> r != Panic && iter == old(iter)
        invariant subscriber != null ==> subscriber.Repr == old(subscriber.Repr)
        invariant pulled <= |old(iter)| && iter == old(iter)[pulled..]
        invariant subscriber != null && r.Keep? ==>
          && Reactive.Run(subscriber.Model(), iter).chain == goal.chain
          && Reactive.Run(subscriber.Model(), iter).reply == goal.reply
          && Reactive.Run(subscriber.Model(), iter).pulled + pulled == goal.pulled
        invariant subscriber != null && !r.Keep? ==> goal == Ran(subscriber.Model(), pulled, r)
        decreases r.Keep?, |iter|
      {
        if subscriber != null && iter != [] { pulled := pulled + 1; }
        r := Next();
      }
    }
  }

  /** The receiving end of a queue. */
  class Receiver {
    var queue: seq<Val>
    var senderAlive: bool

    constructor ()
      ensures queue == [] && senderAlive
    {
      queue := [];
      senderAlive := true;
    }
  }

  /** Drives a chain from a queue. */
  class Coupler {
    const rx: Receiver
    var subscriber: Subscriber?

    constructor (rx: Receiver)
      ensures this.rx == rx && subscriber == null
    {
      this.rx := rx;
      subscriber := null;
    }

    ghost predicate Valid()
      reads this, if subscriber == null then {} else {subscriber} + subscriber.Repr
    {
      subscriber != null ==> subscriber.Valid() && this !in subscriber.Repr && rx !in subscriber.Repr
    }

    method Subscribe(s: Subscriber)
      requires s.Valid() && this !in s.Repr && rx !in s.Repr
      modifies this
      ensures Valid() && subscriber == s
    {
      subscriber := s;
    }

    /** The non-blocking form: an empty queue with a live sender is not the end. */
    method TryNext() returns (r: Reply)
      requires Valid()
      modifies rx, if subscriber == null then {} else subscriber.Repr
      ensures Valid() && rx.senderAlive == old(rx.senderAlive)
      ensures subscriber == null ==> r == Stop && rx.queue == old(rx.queue)
      ensures subscriber != null ==>
        Drawn(rx.queue, subscriber.Model(), r) == Poll(old(rx.queue), old(rx.senderAlive), old(subscriber.Model()))
    {
      if subscriber == null { return Stop; }
      if rx.queue != [] {
        var x := rx.queue[0];
        rx.queue := rx.queue[1..];
        r := subscriber.OnNext(x);
      } else if rx.senderAlive {
        r := Keep;
      } else {
        r := subscriber.OnComplete();
        if r.Keep? { r := Stop; }
      }
    }

    /** The blocking form returns once there is an item or no sender; then it does the same. */
    method Next() returns (r: Reply)
      requires Valid() && (subscriber != null ==> rx.queue != [] || !rx.senderAlive)
      modifies rx, if subscriber == null then {} else subscriber.Repr
      ensures Valid() && rx.senderAlive == old(rx.senderAlive)
      ensures subscriber == null ==> r == Stop && rx.queue == old(rx.queue)
      ensures subscriber != null ==>
        Drawn(rx.queue, subscriber.Model(), r) == Poll(old(rx.queue), old(rx.senderAlive), old(subscriber.Model()))
    {
      if subscriber == null { return Stop; }
      if rx.queue != [] {
        var x := rx.queue[0];
        rx.queue := rx.queue[1..];
        r := subscriber.OnNext(x);
      } else {
        r := subscriber.OnComplete();
        if r.Keep? { r := Stop; }
      }
    }
  }

  // ---- a source that never ends ----

  /** The first `Take` has a subscriber, or there is none and the queue's receiver is gone. */
  predicate Ends(c: Chain)
    requires c.Link?
  {
    if IsSink(c.op) then c.op.Decoupler? && !c.op.open
    else c.next.Link? && (c.op.Take? || Ends(c.next))
  }

  /** How many items the first `Take` of the chain still lets through. */
  function TopLeft(c: Chain): nat
    requires c.Link? && Ends(c)
  {
    if c.op.Take? then Left(c.op) else if IsSink(c.op) then 0 else TopLeft(c.next)
  }

  /** An item lowers what the first `Take` lets through, or is answered by "stop" or a panic. */
  lemma {:induction false} KeepUsesUpTheTop(c: Chain, x: Val)
    requires c.Link? && Ends(c) && !OnNext(c, x).reply.Panic?
    ensures
      var r := OnNext(c, x);
      Ends(r.chain) && TopLeft(r.chain) <= TopLeft(c) && (r.reply.Keep? ==> TopLeft(r.chain) < TopLeft(c))
    decreases Depth(c)
  {
    if !IsSink(c.op) && !c.op.Take? {
      if c.op.Unzip? {
        KeepUsesUpTheTop(c.next, First(x));
        KeepUsesUpTheTop(OnNext(c.next, First(x)).chain, Second(x));
      } else {
        KeepUsesUpTheTop(c.next, Onward(c.op, x));
      }
    }
  }

  /** Any other chain says "keep going" and remains such a chain. */
  lemma {:induction false} KeepsWithoutEnd(c: Chain, x: Val)
    requires c.Link? && !Ends(c)
    ensures OnNext(c, x).reply.Keep? && !Ends(OnNext(c, x).chain)
    decreases Depth(c)
  {
    if !IsSink(c.op) && c.next.Link? {
      if c.op.Unzip? {
        KeepsWithoutEnd(c.next, First(x));
        KeepsWithoutEnd(OnNext(c.next, First(x)).chain, Second(x));
      } else {
        KeepsWithoutEnd(c.next, Onward(c.op, x));
      }
    }
  }

  /** `run` of a publisher that repeats `x`. */
  function RunRepeat(c: Chain, x: Val): Ran
    requires c.Link? && Ends(c)
    decreases TopLeft(c)
  {
    var r := OnNext(c, x);
    if r.reply.Keep? then
      KeepUsesUpTheTop(c, x);
      var more := RunRepeat(r.chain, x);
      more.(pulled := more.pulled + 1)
    else Ran(r.chain, 1, r.reply)
  }

  function Copies(x: Val, n: nat): seq<Val> { seq(n, _ => x) }

  lemma FewerCopies(x: Val, n: nat)
    ensures n > 0 ==> Copies(x, n)[0] == x && Copies(x, n)[1..] == Copies(x, n - 1)
  {
  }

  /** Repeating is running an iterator over enough copies: the repeated run ends where any longer
      finite run would have been stopped, by "stop" in a wired chain and by a panic in any other. */
  lemma {:induction false} RepeatIsLongEnoughRun(c: Chain, x: Val, n: nat)
    requires c.Link? && Ends(c) && n > TopLeft(c)
    ensures RunRepeat(c, x) == Run(c, Copies(x, n))
    ensures RunRepeat(c, x).reply == if Wired(c) then Stop else Panic
    decreases TopLeft(c)
  {
    FewerCopies(x, n);
    if OnNext(c, x).reply.Keep? {
      KeepUsesUpTheTop(c, x);
      RepeatIsLongEnoughRun(OnNext(c, x).chain, x, n - 1);
    }
    RunPanicsExactly(c, Copies(x, n));
    if Wired(c) { RunIsFeed(c, Copies(x, n)); }
  }

  lemma {:induction false} EndlessRun(c: Chain, x: Val, n: nat)
    requires c.Link? && !Ends(c)
    ensures Run(c, Copies(x, n)).pulled == n
    decreases n
  {
    FewerCopies(x, n);
    if n > 0 {
      KeepsWithoutEnd(c, x);
      EndlessRun(OnNext(c, x).chain, x, n - 1);
    }
  }

  ghost predicate StopsBefore(c: Chain, x: Val, n: nat)
    requires c.Link?
  {
    Run(c, Copies(x, n)).pulled < n
  }

  /** Repeating ends if and only if the first `Take` has a subscriber or, without a `Take`, the queue's
      receiver is gone; into any other chain no number of copies is enough. */
  lemma RepeatEndsExactly(c: Chain, x: Val)
    requires c.Link?
    ensures (exists n: nat :: StopsBefore(c, x, n)) <==> Ends(c)
  {
    if Ends(c) {
      var n := TopLeft(c) + RunRepeat(c, x).pulled + 1;
      RepeatIsLongEnoughRun(c, x, n);
      assert StopsBefore(c, x, n);
    } else {
      forall n: nat ensures !StopsBefore(c, x, n) { EndlessRun(c, x, n); }
    }
  }

  /** Sends the same value again and again. */
  class Repeat {
    const val: Val
    var subscriber: Subscriber?

    constructor (v: Val)
      ensures val == v && subscriber == null
    {
      val := v;
      subscriber := null;
    }

    ghost predicate Valid()
      reads this, if subscriber == null then {} else {subscriber} + subscriber.Repr
    {
      subscriber != null ==> subscriber.Valid() && this !in subscriber.Repr
    }

    method Subscribe(s: Subscriber)
      requires s.Valid() && this !in s.Repr
      modifies this
      ensures Valid() && subscriber == s
    {
      subscriber := s;
    }

    method Next() returns (r: Reply)
      requires Valid()
      modifies if subscriber == null then {} else subscriber.Repr
      ensures Valid() && (subscriber == null ==> r == Stop)
      ensures subscriber != null ==>
        && subscriber.Repr == old(subscriber.Repr)
        && Pushed(subscriber.Model(), r) == Reactive.OnNext(old(subscriber.Model()), val)
    {
      if subscriber == null { return Stop; }
      r := subscriber.OnNext(val);
    }

    /** The loop ends because the first `Take` runs out or nobody receives. */
    method Run() returns (r: Reply)
      requires Valid() && (subscriber != null ==> Ends(subscriber.Model()))
      modifies if subscriber == null then {} else subscriber.Repr
      ensures subscriber == null ==> r == Stop
      ensures subscriber != null ==>
        var ran := RunRepeat(old(subscriber.Model()), val);
        Valid() && subscriber.Model() == ran.chain && r == ran.reply
    {
      if subscriber == null { return Stop; }
      ghost var goal := RunRepeat(subscriber.Model(), val);
      r := Keep;
      while r.Keep?
        invariant Valid() && subscriber.Repr == old(subscriber.Repr)
        invariant r.Keep? ==>
          && Ends(subscriber.Model())
          && RunRepeat(subscriber.Model(), val).chain == goal.chain
          && RunRepeat(subscriber.Model(), val).reply == goal.reply
        invariant !r.Keep? ==> goal.chain == subscriber.Model() && goal.reply == r
        decreases r.Keep?, if r.Keep? then TopLeft(subscriber.Model()) else 0
      {
        ghost var c := subscriber.Model();
        r := Next();
        if r.Keep? { KeepUsesUpTheTop(c, val); }
      }
    }
  }
}
