/** What happens in a chain whose slots are not filled all the way down to a sink, and what the counters
    of `Take` say in any chain. */
module UnsubscribedChains {
  import opened Reactive
  import opened Pipelines
  import opened PipelineRuns
  import opened Sequences

  /** The running fold of `Reduce`. */
  function Fold(h: (Val, Val) -> (Val, Val), state: Val, xs: seq<Val>): Val
    decreases |xs|
  {
    if xs == [] then state else Fold(h, h(state, xs[0]).0, xs[1..])
  }

  /** A processor nobody subscribed to takes the whole source, sends nothing on, and panics at the
      completion. Only `Reduce` does its work all the same. */
  lemma {:induction false} UnsubscribedRun(op: Op, heard: seq<Signal>, src: seq<Val>)
    requires !IsSink(op)
    ensures
      var state := if op.Reduce? then Reduce(op.h, Fold(op.h, op.state, src)) else op;
      Run(Link(op, heard, Loose), src) == Ran(Link(state, heard + Nexts(src) + [Complete], Loose), |src|, Panic)
    decreases |src|
  {
    if src == [] {
      assert heard + Nexts([]) == heard;
    } else {
      assert Nexts(src) == [Next(src[0])] + Nexts(src[1..]);
      Regrouped(heard, [Next(src[0])], Nexts(src[1..]));
      UnsubscribedRun(if op.Reduce? then After(op, src[0]) else op, heard + [Next(src[0])], src[1..]);
    }
  }

  /** The last stage there is. */
  function Bottom(c: Chain): (b: Chain)
    requires c.Link?
    ensures b.Link?
  {
    if c.next.Link? then Bottom(c.next) else c
  }

  /** What the last stage of an unsubscribed chain was given beyond `before`: items only, or, if the
      reply was a panic, items and then one completion, after which nothing more was pushed. */
  ghost predicate GaveBottom(before: seq<Signal>, now: seq<Signal>, reply: Reply) {
    && before <= now
    && if reply.Panic? then
         |now| > |before| && now[|now| - 1].Complete? && Completions(now[|before|..|now| - 1]) == 0
       else Completions(now[|before|..]) == 0
  }

  lemma GaveBottomTwice(a: seq<Signal>, b: seq<Signal>, c: seq<Signal>, reply: Reply)
    requires GaveBottom(a, b, Keep) && GaveBottom(b, c, reply)
    ensures GaveBottom(a, c, reply)
  {
    if reply.Panic? {
      assert c[|a|..|c| - 1] == b[|a|..] + c[|b|..|c| - 1];
      CompletionsAppend(b[|a|..], c[|b|..|c| - 1]);
    } else {
      assert c[|a|..] == b[|a|..] + c[|b|..];
      CompletionsAppend(b[|a|..], c[|b|..]);
    }
  }

  lemma {:induction false} CompletionGoesToBottom(c: Chain)
    requires c.Link? && !Wired(c)
    ensures OnComplete(c).reply == Panic
    ensures GaveBottom(Bottom(c).heard, Bottom(OnComplete(c).chain).heard, Panic)
  {
    if c.next.Link? {
      CompletionGoesToBottom(c.next);
    } else {
      assert (c.heard + [Complete])[|c.heard|..|c.heard|] == [];
    }
  }

  /** An item pushed into an unsubscribed chain: a panic cuts the push short, also between the two halves
      of a pair. */
  lemma {:induction false} ItemGoesToBottom(c: Chain, x: Val)
    requires c.Link? && !Wired(c)
    ensures
      var r := OnNext(c, x);
      GaveBottom(Bottom(c).heard, Bottom(r.chain).heard, r.reply)
    decreases Depth(c)
  {
    if c.next.Loose? {
      assert (c.heard + [Next(x)])[|c.heard|..] == [Next(x)] && [Next(x)][1..] == [];
    } else if c.op.Unzip? {
      ItemGoesToBottom(c.next, First(x));
      UnwiredNeverStops(c.next, First(x));
      var a := OnNext(c.next, First(x));
      if a.reply.Keep? {
        ItemGoesToBottom(a.chain, Second(x));
        var b := OnNext(a.chain, Second(x));
        GaveBottomTwice(Bottom(c.next).heard, Bottom(a.chain).heard, Bottom(b.chain).heard, b.reply);
      }
    } else if c.op.Take? && c.op.taken + 1 > c.op.max {
      CompletionGoesToBottom(c.next);
    } else {
      ItemGoesToBottom(c.next, Onward(c.op, x));
    }
  }

  /** Every run into an unsubscribed chain ends in a panic, at the first completion that reaches the last
      stage, and nothing is pushed after it. */
  lemma {:induction false} PanicIsLast(c: Chain, src: seq<Val>)
    requires c.Link? && !Wired(c)
    ensures Run(c, src).reply == Panic && Run(c, src).chain.Link?
    ensures GaveBottom(Bottom(c).heard, Bottom(Run(c, src).chain).heard, Panic)
    decreases |src|
  {
    if src == [] {
      CompletionGoesToBottom(c);
    } else {
      ItemGoesToBottom(c, src[0]);
      UnwiredNeverStops(c, src[0]);
      var r := OnNext(c, src[0]);
      if r.reply.Keep? {
        PanicIsLast(r.chain, src[1..]);
        GaveBottomTwice(Bottom(c).heard, Bottom(r.chain).heard, Bottom(Run(r.chain, src[1..]).chain).heard, Panic);
      }
    }
  }

  // ---- the counters of `Take` in any chain ----

  /** Every `Take` with a subscriber has counted the items it was given, and one that has not been given
      more than its limit has notified nobody. */
  ghost predicate TakesCount(c: Chain) {
    c.Link? ==>
      && (c.op.Take? && c.next.Link? ==>
            c.op.taken == |Values(c.heard)| && (c.op.notified ==> c.op.taken > c.op.max))
      && TakesCount(c.next)
  }

  /** Some `Take` has completed its subscriber. */
  predicate Notified(c: Chain) {
    c.Link? && ((c.op.Take? && c.op.notified) || Notified(c.next))
  }

  lemma HearsOne(heard: seq<Signal>, x: Val)
    ensures |Values(heard + [Next(x)])| == |Values(heard)| + 1 && Values(heard + [Complete]) == Values(heard)
  {
    ValuesOfOne(x);
    ValuesAppend(heard, [Next(x)]);
    ValuesAppend(heard, [Complete]);
    assert Values(heard) + [] == Values(heard);
  }

  lemma {:induction false} CompletionKeepsCounts(c: Chain)
    requires c.Link? && TakesCount(c)
    ensures TakesCount(OnComplete(c).chain) && Notified(OnComplete(c).chain) == Notified(c)
  {
    HearsOne(c.heard, Atom(0));
    if c.next.Link? && !IsSink(c.op) { CompletionKeepsCounts(c.next); }
  }

  lemma {:induction false} ItemKeepsCounts(c: Chain, x: Val)
    requires c.Link? && TakesCount(c)
    ensures TakesCount(OnNext(c, x).chain)
    decreases Depth(c)
  {
    HearsOne(c.heard, x);
    if c.next.Link? && !IsSink(c.op) {
      if c.op.Unzip? {
        ItemKeepsCounts(c.next, First(x));
        ItemKeepsCounts(OnNext(c.next, First(x)).chain, Second(x));
      } else if c.op.Take? && c.op.taken + 1 > c.op.max {
        CompletionKeepsCounts(c.next);
      } else {
        ItemKeepsCounts(c.next, Onward(c.op, x));
      }
    }
  }

  /** In every run into any chain, subscribed to the end or not, the counters keep up with the items,
      whether the run ends by itself, by a `Take`, or by a panic. */
  lemma {:induction false} RunKeepsCounts(c: Chain, src: seq<Val>)
    requires c.Link? && TakesCount(c)
    ensures TakesCount(Run(c, src).chain)
    decreases |src|
  {
    if src == [] {
      CompletionKeepsCounts(c);
    } else {
      ItemKeepsCounts(c, src[0]);
      if OnNext(c, src[0]).reply.Keep? { RunKeepsCounts(OnNext(c, src[0]).chain, src[1..]); }
    }
  }

  lemma {:induction false} UnwiredCompletionNotifiesNobody(c: Chain)
    requires c.Link? && !Wired(c)
    ensures Notified(OnComplete(c).chain) == Notified(c)
  {
    if c.next.Link? { UnwiredCompletionNotifiesNobody(c.next); }
  }

  lemma {:induction false} UnwiredItemNotifiesNobody(c: Chain, x: Val)
    requires c.Link? && !Wired(c)
    ensures Notified(OnNext(c, x).chain) == Notified(c)
    decreases Depth(c)
  {
    if c.next.Link? {
      if c.op.Unzip? {
        UnwiredItemNotifiesNobody(c.next, First(x));
        UnwiredNeverStops(c.next, First(x));
        var a := OnNext(c.next, First(x));
        if a.reply.Keep? { UnwiredItemNotifiesNobody(a.chain, Second(x)); }
      } else if c.op.Take? && c.op.taken + 1 > c.op.max {
        UnwiredCompletionPanics(c.next);
        UnwiredCompletionNotifiesNobody(c.next);
      } else {
        UnwiredItemNotifiesNobody(c.next, Onward(c.op, x));
      }
    }
  }

  /** In an unsubscribed chain a `Take` over its limit runs into the panic before it can note that it
      has notified its subscriber. */
  lemma {:induction false} PanicNotifiesNobody(c: Chain, src: seq<Val>)
    requires c.Link? && !Wired(c)
    ensures Run(c, src).reply == Panic && Notified(Run(c, src).chain) == Notified(c)
    decreases |src|
  {
    if src == [] {
      UnwiredCompletionPanics(c);
      UnwiredCompletionNotifiesNobody(c);
    } else {
      UnwiredItemNotifiesNobody(c, src[0]);
      UnwiredNeverStops(c, src[0]);
      if OnNext(c, src[0]).reply.Keep? { PanicNotifiesNobody(OnNext(c, src[0]).chain, src[1..]); }
    }
  }
}
