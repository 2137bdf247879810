/** What holds of every run of a publisher into every chain of stages. */
module PipelineRuns {
  import opened Reactive
  import opened Pipelines
  import opened Sequences

  function Nexts(xs: seq<Val>): seq<Signal> {
    seq(|xs|, i requires 0 <= i < |xs| => Next(xs[i]))
  }

  lemma {:induction false} ValuesOfNexts(xs: seq<Val>)
    ensures Values(Nexts(xs)) == xs
  {
    if xs != [] {
      assert Nexts(xs)[1..] == Nexts(xs[1..]);
      ValuesOfNexts(xs[1..]);
    }
  }

  /** A chain applied to a list in two instalments. */
  lemma DenoteAppend(c: Chain, a: seq<Val>, b: seq<Val>)
    requires Wired(c)
    ensures Denote(c, a + b) == Denote(c, a) + Denote(Feed(c, Nexts(a)), b)
  {
    var c' := Feed(c, Nexts(a));
    FeedAppend(c, Nexts(a), Nexts(b));
    ThroughComputes(c, Nexts(a) + Nexts(b));
    ThroughComputes(c, Nexts(a));
    ThroughComputes(c', Nexts(b));
    ValuesAppend(Nexts(a), Nexts(b));
    ValuesAppend(Through(c, Nexts(a)), Through(c', Nexts(b)));
    ValuesOfNexts(a);
    ValuesOfNexts(b);
  }

  /** A closed chain turns every list into nothing. */
  lemma ClosedDenotesNothing(c: Chain, xs: seq<Val>)
    requires Wired(c) && Accepts(c) && Closed(c)
    ensures Denote(c, xs) == []
  {
    ClosedForGood(c, Nexts(xs));
    NoNextNoValues(Through(c, Nexts(xs)));
    ThroughComputes(c, Nexts(xs));
    ValuesOfNexts(xs);
  }

  /** The calls a run makes on the first subscriber. */
  function RunSignals(c: Chain, src: seq<Val>): seq<Signal>
    requires c.Link?
    decreases |src|
  {
    if src == [] then [Complete]
    else
      var r := OnNext(c, src[0]);
      [Next(src[0])] + (if r.reply.Keep? then RunSignals(r.chain, src[1..]) else [])
  }

  /** A run leaves the chain as the stage-by-stage evaluation of those calls does. */
  lemma {:induction false} RunIsFeed(c: Chain, src: seq<Val>)
    requires Wired(c)
    ensures
      var ran := Run(c, src);
      ran.chain == Feed(c, RunSignals(c, src)) && ran.reply == Stop && ran.pulled <= |src|
    decreases |src|
  {
    if src == [] {
      CompleteIsFeed(c);
    } else {
      var first := [Next(src[0])];
      PushIsFeed(c, src[0]);
      var c' := Feed(c, first);
      if OnNext(c, src[0]).reply.Keep? {
        RunIsFeed(c', src[1..]);
        FeedAppend(c, first, RunSignals(c', src[1..]));
      } else {
        assert first + [] == first;
      }
    }
  }

  /** Those calls push the first `pulled` items in order, and a completion last if at all. */
  lemma {:induction false} RunPushesInOrder(c: Chain, src: seq<Val>)
    requires Wired(c)
    ensures
      var n := Run(c, src).pulled;
      && n <= |src|
      && (RunSignals(c, src) == Nexts(src[..n]) || RunSignals(c, src) == Nexts(src[..n]) + [Complete])
    decreases |src|
  {
    var n := Run(c, src).pulled;
    if src == [] {
      assert Nexts([]) + [Complete] == [Complete];
    } else {
      var first, rest := [Next(src[0])], src[1..];
      PushIsFeed(c, src[0]);
      if OnNext(c, src[0]).reply.Keep? {
        RunPushesInOrder(OnNext(c, src[0]).chain, rest);
        assert Nexts(src[..n]) == first + Nexts(rest[..n - 1]);
        assert Nexts(src[..n]) + [Complete] == first + (Nexts(rest[..n - 1]) + [Complete]);
      } else {
        assert first + [] == first == Nexts(src[..1]);
      }
    }
  }

  /** A completion adds nothing to the output, as the empty list does not. */
  lemma CompletionOutput(c: Chain)
    requires Wired(c) && Accepts(c)
    ensures Output(Feed(c, [Complete])) == Output(c) + Denote(c, [])
  {
    FeedOutput(c, [Complete]);
    ThroughComputes(c, [Complete]);
    ValuesOfOne(Atom(0));
  }

  /** An item adds its share of the output and leaves a chain that makes the rest of it. */
  lemma ItemOutput(c: Chain, x: Val, rest: seq<Val>)
    requires Wired(c) && Accepts(c)
    ensures
      var c' := Feed(c, [Next(x)]);
      Accepts(c') && Output(c) + Denote(c, [x] + rest) == Output(c') + Denote(c', rest)
  {
    var c' := Feed(c, [Next(x)]);
    FeedOutput(c, [Next(x)]);
    FeedKeepsAccepts(c, [Next(x)]);
    ThroughComputes(c, [Next(x)]);
    ValuesOfOne(x);
    assert Nexts([x]) == [Next(x)];
    DenoteAppend(c, [x], rest);
    Regrouped(Output(c), Denote(c, [x]), Denote(c', rest));
  }

  /** For every wired chain of any stages, from any state, and every source: the run ends without a
      panic, and it adds to the output exactly the composed list functions of the whole source, even
      when a `Take` stopped it early. */
  lemma {:induction false} RunComputes(c: Chain, src: seq<Val>)
    requires Wired(c) && Accepts(c)
    ensures Run(c, src).reply == Stop && Wired(Run(c, src).chain)
    ensures Output(Run(c, src).chain) == Output(c) + Denote(c, src)
    decreases |src|
  {
    RunIsFeed(c, src);
    if src == [] {
      CompleteIsFeed(c);
      CompletionOutput(c);
    } else {
      var x, rest := src[0], src[1..];
      var c' := Feed(c, [Next(x)]);
      PushIsFeed(c, x);
      assert src == [x] + rest;
      ItemOutput(c, x, rest);
      if OnNext(c, x).reply.Keep? {
        RunComputes(c', rest);
      } else {
        StopCloses(c, x);
        ClosedDenotesNothing(c', rest);
      }
    }
  }

  /** A run panics exactly when the chain is not subscribed all the way down to a sink. */
  lemma {:induction false} RunPanicsExactly(c: Chain, src: seq<Val>)
    requires c.Link?
    ensures Run(c, src).reply == Panic <==> !Wired(c)
    decreases |src|
  {
    if Wired(c) {
      RunIsFeed(c, src);
    } else if src == [] {
      UnwiredCompletionPanics(c);
    } else {
      UnwiredNeverStops(c, src[0]);
      if OnNext(c, src[0]).reply.Keep? { RunPanicsExactly(OnNext(c, src[0]).chain, src[1..]); }
    }
  }

  lemma {:induction false} UnwiredCompletionPanics(c: Chain)
    requires c.Link? && !Wired(c)
    ensures OnComplete(c).reply == Panic
  {
    if c.next.Link? { UnwiredCompletionPanics(c.next); }
  }

  lemma {:induction false} UnwiredNeverStops(c: Chain, x: Val)
    requires c.Link? && !Wired(c)
    ensures !OnNext(c, x).reply.Stop? && (OnNext(c, x).reply.Keep? ==> !Wired(OnNext(c, x).chain))
    decreases Depth(c)
  {
    if c.next.Link? {
      if c.op.Unzip? {
        UnwiredNeverStops(c.next, First(x));
        var a := OnNext(c.next, First(x));
        if !a.reply.Panic? { UnwiredNeverStops(a.chain, Second(x)); }
      } else if c.op.Take? && c.op.taken + 1 > c.op.max {
        UnwiredCompletionPanics(c.next);
      } else {
        UnwiredNeverStops(c.next, Onward(c.op, x));
      }
    }
  }

  // ---- looking at one stage of the chain ----

  /** The chain from stage `k` on; past the last stage, the sink. */
  function Tail(c: Chain, k: nat): (t: Chain)
    requires Wired(c)
    ensures Wired(t)
  {
    if k == 0 || IsSink(c.op) then c else Tail(c.next, k - 1)
  }

  /** The calls stage `k` receives when the first stage receives `ss`. */
  function Arrivals(c: Chain, k: nat, ss: seq<Signal>): seq<Signal>
    requires Wired(c)
  {
    if k == 0 || IsSink(c.op) then ss else Arrivals(c.next, k - 1, Emit(c.op, ss).out)
  }

  /** The composition of the list functions of the first `k` stages. */
  function DenoteUpTo(c: Chain, k: nat, xs: seq<Val>): seq<Val>
    requires Wired(c)
  {
    if k == 0 || IsSink(c.op) then xs else DenoteUpTo(c.next, k - 1, ListFunction(c.op, xs))
  }

  lemma {:induction false} TailIsFed(c: Chain, k: nat, ss: seq<Signal>)
    requires Wired(c)
    ensures Tail(Feed(c, ss), k) == Feed(Tail(c, k), Arrivals(c, k, ss))
  {
    if k > 0 && !IsSink(c.op) {
      EmitKeepsKind(c.op, ss);
      TailIsFed(c.next, k - 1, Emit(c.op, ss).out);
    }
  }

  lemma {:induction false} ArrivalsCompute(c: Chain, k: nat, ss: seq<Signal>)
    requires Wired(c)
    ensures Values(Arrivals(c, k, ss)) == DenoteUpTo(c, k, Values(ss))
  {
    if k > 0 && !IsSink(c.op) {
      EmitComputes(c.op, ss);
      ArrivalsCompute(c.next, k - 1, Emit(c.op, ss).out);
    }
  }

  lemma {:induction false} ArrivalsKeepOrder(c: Chain, k: nat, ss: seq<Signal>)
    requires Wired(c) && Orderly(ss)
    ensures Orderly(Arrivals(c, k, ss))
  {
    if k > 0 && !IsSink(c.op) {
      EmitKeepsOrder(c.op, ss);
      ArrivalsKeepOrder(c.next, k - 1, Emit(c.op, ss).out);
    }
  }

  /** What stage `k` becomes, what it is given, and that order is kept on the way to it. */
  lemma TailOfFeed(c: Chain, k: nat, ss: seq<Signal>)
    requires Wired(c)
    ensures Tail(Feed(c, ss), k) == Feed(Tail(c, k), Arrivals(c, k, ss))
    ensures Values(Arrivals(c, k, ss)) == DenoteUpTo(c, k, Values(ss))
    ensures Orderly(ss) ==> Orderly(Arrivals(c, k, ss))
  {
    TailIsFed(c, k, ss);
    ArrivalsCompute(c, k, ss);
    if Orderly(ss) { ArrivalsKeepOrder(c, k, ss); }
  }

  // ---- the completion protocol ----

  /** No item after a completion. */
  predicate Orderly(ss: seq<Signal>) {
    forall i, j :: 0 <= i < j < |ss| && ss[i].Complete? ==> ss[j].Complete?
  }

  lemma OrderlyTail(ss: seq<Signal>)
    requires Orderly(ss) && ss != []
    ensures Orderly(ss[1..]) && (ss[0].Complete? ==> !HasNext(ss[1..]))
  {
    forall i, j | 0 <= i < j < |ss[1..]| && ss[1..][i].Complete? ensures ss[1..][j].Complete? {
      assert ss[i + 1].Complete? && ss[j + 1].Complete?;
    }
    if ss[0].Complete? {
      forall i | 0 <= i < |ss[1..]| ensures !ss[1..][i].Next? { assert ss[i + 1].Complete?; }
    }
  }

  lemma {:induction false} EmitKeepsOrder(op: Op, ss: seq<Signal>)
    requires Orderly(ss)
    ensures Orderly(Emit(op, ss).out)
    decreases |ss|
  {
    if ss != [] {
      OrderlyTail(ss);
      var first := EmitOne(op, ss[0]);
      EmitKeepsOrder(first.op, ss[1..]);
      if ss[0].Complete? {
        EmitOnlyCompletes(first.op, ss[1..]);
      } else if op.Take? && op.taken + 1 > op.max {
        FullTakeEmitsCompletes(first.op, ss[1..]);
      }
    }
  }

  function Completions(ss: seq<Signal>): nat {
    if ss == [] then 0 else (if ss[0].Complete? then 1 else 0) + Completions(ss[1..])
  }

  lemma {:induction false} CompletionsAppend(a: seq<Signal>, b: seq<Signal>)
    ensures Completions(a + b) == Completions(a) + Completions(b)
  {
    if a == [] {
      assert a + b == b;
    } else {
      assert (a + b)[1..] == a[1..] + b;
      CompletionsAppend(a[1..], b);
    }
  }

  predicate HasTake(c: Chain)
    requires Wired(c)
  {
    !IsSink(c.op) && (c.op.Take? || HasTake(c.next))
  }

  /** No `Unzip` feeds, directly or not, into a `Take`. */
  predicate TakesFirst(c: Chain)
    requires Wired(c)
  {
    IsSink(c.op) || (TakesFirst(c.next) && (c.op.Unzip? ==> !HasTake(c.next)))
  }

  lemma {:induction false} EmitKeepsShape(op: Op, ss: seq<Signal>)
    ensures Emit(op, ss).op.Take? == op.Take? && Emit(op, ss).op.Unzip? == op.Unzip?
    decreases |ss|
  {
    if ss != [] { EmitKeepsShape(EmitOne(op, ss[0]).op, ss[1..]); }
  }

  lemma RunSignalsValues(c: Chain, src: seq<Val>)
    requires Wired(c)
    ensures Run(c, src).pulled <= |src| && Values(RunSignals(c, src)) == src[..Run(c, src).pulled]
    ensures Orderly(RunSignals(c, src))
  {
    RunPushesInOrder(c, src);
    var items := src[..Run(c, src).pulled];
    ValuesOfNexts(items);
    ValuesAppend(Nexts(items), [Complete]);
    ValuesOfOne(Atom(0));
    assert items + [] == items;
  }

  /** In one run, no stage is given an item after a completion. */
  lemma NoItemAfterCompletion(c: Chain, src: seq<Val>, k: nat)
    requires Wired(c) && Tail(c, k).heard == []
    ensures Wired(Run(c, src).chain) && Orderly(Tail(Run(c, src).chain, k).heard)
  {
    RunIsFeed(c, src);
    RunSignalsValues(c, src);
    TailOfFeed(c, k, RunSignals(c, src));
    var mine := Arrivals(c, k, RunSignals(c, src));
    assert [] + mine == mine;
  }

  /** The completions a run brings to the sink. */
  function Endings(c: Chain, src: seq<Val>): nat
    requires Wired(c)
  {
    Completions(Through(c, RunSignals(c, src)))
  }

  lemma EndingsAfterOne(c: Chain, src: seq<Val>)
    requires Wired(c) && src != []
    ensures
      var first := [Next(src[0])];
      Endings(c, src) == Completions(Through(c, first))
                         + (if OnNext(c, src[0]).reply.Keep? then Endings(Feed(c, first), src[1..]) else 0)
  {
    var first := [Next(src[0])];
    PushIsFeed(c, src[0]);
    if OnNext(c, src[0]).reply.Keep? {
      var c' := Feed(c, first);
      FeedAppend(c, first, RunSignals(c', src[1..]));
      CompletionsAppend(Through(c, first), Through(c', RunSignals(c', src[1..])));
    } else {
      assert first + [] == first;
    }
  }

  lemma {:induction false} CompletionArrives(c: Chain, src: seq<Val>)
    requires Wired(c) && Accepts(c)
    ensures Endings(c, src) >= 1
    decreases |src|
  {
    if src == [] {
      OnlyCompletes(c, [Complete]);
    } else {
      var first := [Next(src[0])];
      EndingsAfterOne(c, src);
      KeepsExactly(c, src[0]);
      if OnNext(c, src[0]).reply.Keep? {
        FeedKeepsAccepts(c, first);
        CompletionArrives(Feed(c, first), src[1..]);
      } else {
        SomethingArrives(c, first);
        assert Through(c, first)[0].Complete?;
      }
    }
  }

  /** How many completions the sink has heard when the run is over. */
  function CompletionsHeard(c: Chain, src: seq<Val>): nat
    requires Wired(c)
  {
    RunIsFeed(c, src);
    Completions(SinkOf(Run(c, src).chain).heard)
  }

  lemma HeardEndings(c: Chain, src: seq<Val>)
    requires Wired(c) && SinkOf(c).heard == []
    ensures CompletionsHeard(c, src) == Endings(c, src)
  {
    RunIsFeed(c, src);
    FeedOutput(c, RunSignals(c, src));
    assert [] + Through(c, RunSignals(c, src)) == Through(c, RunSignals(c, src));
  }

  /** In one run into a chain that accepts, the sink hears at least one completion. */
  lemma SinkIsCompleted(c: Chain, src: seq<Val>)
    requires Wired(c) && Accepts(c) && SinkOf(c).heard == []
    ensures CompletionsHeard(c, src) >= 1
  {
    HeardEndings(c, src);
    CompletionArrives(c, src);
  }

  // ---- when the sink is completed exactly once ----

  datatype Limit = Unlimited | AtMost(n: nat)

  function OneLess(l: Limit): Limit {
    if l.AtMost? && l.n > 0 then AtMost(l.n - 1) else l
  }

  function Tighter(n: nat, l: Limit): Limit {
    if l.AtMost? && l.n < n then l else AtMost(n)
  }

  /** The items a `Take` still lets through. */
  function Left(op: Op): nat
    requires op.Take?
  {
    if op.taken <= op.max then op.max - op.taken else 0
  }

  /** How many items get through the chain whole, with everything `Unzip` makes of them, before some
      `Take` completes its subscriber. */
  function Budget(c: Chain): Limit
    requires Wired(c)
  {
    if IsSink(c.op) then Unlimited
    else
      var below := Budget(c.next);
      if c.op.Take? then Tighter(Left(c.op), below)
      else if c.op.Unzip? && below.AtMost? then AtMost(below.n / 2)
      else below
  }

  /** Whatever runs out first does so in a way that stops the whole chain. */
  predicate RunsOutOnce(c: Chain)
    requires Wired(c)
  {
    if IsSink(c.op) then true
    else if c.op.Take? then (Budget(c.next).AtMost? ==> Left(c.op) <= Budget(c.next).n) || RunsOutOnce(c.next)
    else if c.op.Unzip? then Budget(c.next) == Unlimited
    else RunsOutOnce(c.next)
  }

  lemma PlainPush(c: Chain, x: Val)
    requires Wired(c) && !IsSink(c.op) && !c.op.Unzip? && (c.op.Take? ==> Left(c.op) > 0)
    ensures
      var pushed := Feed(c, [Next(x)]);
      var y := if c.op.Take? then x else Onward(c.op, x);
      && Through(c, [Next(x)]) == Through(c.next, [Next(y)])
      && pushed.next == Feed(c.next, [Next(y)]) && !IsSink(pushed.op)
      && pushed.op.Unzip? == c.op.Unzip? && pushed.op.Take? == c.op.Take?
      && (c.op.Take? ==> Left(pushed.op) == Left(c.op) - 1)
  {
    EmitSingle(c.op, Next(x));
    EmitKeepsKind(c.op, [Next(x)]);
  }

  lemma SpentPush(c: Chain, x: Val)
    requires Wired(c) && c.op.Take? && Left(c.op) == 0
    ensures Through(c, [Next(x)]) == [Complete] && Completions([Complete]) == 1 && !HasNext([Complete])
    ensures Feed(c, [Next(x)]).op.Take? && Left(Feed(c, [Next(x)]).op) == 0
  {
    EmitSingle(c.op, Next(x));
    OnlyCompletes(c.next, [Complete]);
    assert [Complete][1..] == [];
  }

  lemma UnzipPush(c: Chain, x: Val)
    requires Wired(c) && c.op.Unzip?
    ensures
      var (a, b) := ([Next(First(x))], [Next(Second(x))]);
      var mid := Feed(c.next, a);
      var pushed := Feed(c, [Next(x)]);
      && pushed.op == Unzip && pushed.next == Feed(mid, b)
      && Through(c, [Next(x)]) == Through(c.next, a) + Through(mid, b)
      && Completions(Through(c, [Next(x)])) == Completions(Through(c.next, a)) + Completions(Through(mid, b))
      && (HasNext(Through(c, [Next(x)])) <==> HasNext(Through(c.next, a)) || HasNext(Through(mid, b)))
      && Depth(mid) == Depth(c.next)
  {
    var a, b := [Next(First(x))], [Next(Second(x))];
    EmitSingle(c.op, Next(x));
    assert a + b == [Next(First(x)), Next(Second(x))];
    FeedAppend(c.next, a, b);
    FeedKeepsDepth(c.next, a);
    CompletionsAppend(Through(c.next, a), Through(Feed(c.next, a), b));
    HasNextAppend(Through(c.next, a), Through(Feed(c.next, a), b));
  }

  /** Within the budget an item arrives, nothing is completed, and the budget is one less. */
  lemma {:induction false} WithinBudget(c: Chain, x: Val)
    requires Wired(c) && Budget(c) != AtMost(0)
    ensures Completions(Through(c, [Next(x)])) == 0 && HasNext(Through(c, [Next(x)]))
    ensures Budget(Feed(c, [Next(x)])) == OneLess(Budget(c))
    ensures RunsOutOnce(Feed(c, [Next(x)])) == RunsOutOnce(c)
    decreases Depth(c)
  {
    if IsSink(c.op) {
      assert [Next(x)][0].Next? && [Next(x)][1..] == [];
    } else if c.op.Unzip? {
      UnzipPush(c, x);
      WithinBudget(c.next, First(x));
      WithinBudget(Feed(c.next, [Next(First(x))]), Second(x));
    } else {
      PlainPush(c, x);
      WithinBudget(c.next, if c.op.Take? then x else Onward(c.op, x));
    }
  }

  /** Past the budget every item completes the sink. */
  lemma {:induction false} PastBudget(c: Chain, x: Val)
    requires Wired(c) && Budget(c) == AtMost(0)
    ensures Completions(Through(c, [Next(x)])) >= 1 && Budget(Feed(c, [Next(x)])) == AtMost(0)
    decreases Depth(c)
  {
    if c.op.Unzip? {
      UnzipPush(c, x);
      if Budget(c.next) == AtMost(0) { PastBudget(c.next, First(x)); } else { WithinBudget(c.next, First(x)); }
      PastBudget(Feed(c.next, [Next(First(x))]), Second(x));
    } else if c.op.Take? && Left(c.op) == 0 {
      SpentPush(c, x);
    } else {
      PlainPush(c, x);
      PastBudget(c.next, if c.op.Take? then x else Onward(c.op, x));
    }
  }

  /** The item that meets an empty budget: one completion and nothing else, or more to come. */
  lemma {:induction false} LastItem(c: Chain, x: Val)
    requires Wired(c) && Budget(c) == AtMost(0)
    ensures RunsOutOnce(c) ==> Completions(Through(c, [Next(x)])) == 1 && !HasNext(Through(c, [Next(x)]))
    ensures !RunsOutOnce(c) ==> Completions(Through(c, [Next(x)])) >= 2 || HasNext(Through(c, [Next(x)]))
    decreases Depth(c)
  {
    if c.op.Unzip? {
      UnzipPush(c, x);
      if Budget(c.next) == AtMost(0) {
        PastBudget(c.next, First(x));
        PastBudget(Feed(c.next, [Next(First(x))]), Second(x));
      } else {
        WithinBudget(c.next, First(x));
      }
    } else if c.op.Take? && Left(c.op) == 0 {
      SpentPush(c, x);
    } else {
      PlainPush(c, x);
      LastItem(c.next, if c.op.Take? then x else Onward(c.op, x));
    }
  }

  lemma {:induction false} UnlimitedRunsOutOnce(c: Chain)
    requires Wired(c) && Budget(c) == Unlimited
    ensures RunsOutOnce(c)
  {
    if !IsSink(c.op) && !c.op.Unzip? { UnlimitedRunsOutOnce(c.next); }
  }

  lemma {:induction false} OnceEndsOnce(c: Chain, src: seq<Val>)
    requires Wired(c) && Accepts(c) && RunsOutOnce(c)
    ensures Endings(c, src) == 1
    decreases |src|
  {
    if src == [] {
      OnlyCompletes(c, [Complete]);
      assert [Complete][1..] == [];
    } else {
      EndingsAfterOne(c, src);
      KeepsExactly(c, src[0]);
      FeedKeepsAccepts(c, [Next(src[0])]);
      if Budget(c) == AtMost(0) {
        LastItem(c, src[0]);
      } else {
        WithinBudget(c, src[0]);
        OnceEndsOnce(Feed(c, [Next(src[0])]), src[1..]);
      }
    }
  }

  /** Otherwise a source one item longer than the budget completes the sink again. */
  lemma {:induction false} OtherwiseEndsTwice(c: Chain, x: Val) returns (src: seq<Val>)
    requires Wired(c) && Accepts(c) && !RunsOutOnce(c)
    ensures Budget(c).AtMost? && |src| == Budget(c).n + 1 && Endings(c, src) >= 2
    decreases if Budget(c).AtMost? then Budget(c).n else 0
  {
    if Budget(c) == Unlimited { UnlimitedRunsOutOnce(c); }
    var c' := Feed(c, [Next(x)]);
    KeepsExactly(c, x);
    FeedKeepsAccepts(c, [Next(x)]);
    if Budget(c) == AtMost(0) {
      src := [x];
      EndingsAfterOne(c, src);
      PastBudget(c, x);
      LastItem(c, x);
      CompletionArrives(c', src[1..]);
    } else {
      WithinBudget(c, x);
      var rest := OtherwiseEndsTwice(c', x);
      src := [x] + rest;
      assert src[1..] == rest;
      EndingsAfterOne(c, src);
    }
  }

  /** Every run completes the sink exactly once if and only if the limits of the chain run out once:
      on the way down, a `Take` with no more left than the rest of the chain can use comes before any
      `Unzip` that has a `Take` below it. The condition looks at the limits alone. */
  lemma CompletesOnceExactly(c: Chain)
    requires Wired(c) && Accepts(c) && SinkOf(c).heard == []
    ensures (forall src: seq<Val> :: CompletionsHeard(c, src) == 1) <==> RunsOutOnce(c)
  {
    if RunsOutOnce(c) {
      forall src: seq<Val> ensures CompletionsHeard(c, src) == 1 {
        HeardEndings(c, src);
        OnceEndsOnce(c, src);
      }
    } else {
      var src := OtherwiseEndsTwice(c, Atom(0));
      HeardEndings(c, src);
      assert CompletionsHeard(c, src) != 1;
    }
  }

  /** In particular when no `Unzip` feeds a `Take`. */
  lemma ExactlyOneCompletion(c: Chain, src: seq<Val>)
    requires Wired(c) && Accepts(c) && TakesFirst(c) && SinkOf(c).heard == []
    ensures CompletionsHeard(c, src) == 1
  {
    TakesFirstIsSmallest(c);
    CompletesOnceExactly(c);
  }

  /** A `Take(1)` in front of a collector after `n` items, its own calls being `calls`. */
  function OneTaken(n: nat, calls: seq<Signal>, v: Val, ends: seq<Signal>): Chain {
    Link(Take(n, 1, n > 1), calls, Link(Collect([v]), [Next(v)] + ends, Loose))
  }

  lemma OneTakenStops(n: nat, calls: seq<Signal>, v: Val, ends: seq<Signal>, x: Val)
    requires n >= 1
    ensures OnNext(OneTaken(n, calls, v, ends), x)
         == Pushed(OneTaken(n + 1, calls + [Next(x)], v, ends + [Complete]), Stop)
  {
    assert ([Next(v)] + ends) + [Complete] == [Next(v)] + (ends + [Complete]);
  }

  function UnzipTakeOne(): Chain {
    Link(Unzip, [], Link(Take(0, 1, false), [], Link(Collect([]), [], Loose)))
  }

  lemma FirstTaken(a: Val)
    ensures OnNext(UnzipTakeOne().next, a) == Pushed(OneTaken(1, [Next(a)], a, []), Keep)
  {
    var sink := Link(Collect([]), [], Loose);
    assert [] + [Next(a)] == [Next(a)] == [Next(a)] + [] && [] + [a] == [a];
    assert OnNext(sink, a) == Pushed(Link(Collect([a]), [Next(a)], Loose), Keep);
  }

  /** The first pair gets one item through and is told to keep going. */
  lemma FirstPair(a: Val, b: Val)
    ensures OnNext(UnzipTakeOne(), Pair(a, b))
         == Pushed(Link(Unzip, [Next(Pair(a, b))], OneTaken(2, [Next(a), Next(b)], a, [Complete])), Keep)
  {
    FirstTaken(a);
    OneTakenStops(1, [Next(a)], a, [], b);
    assert [Next(a)] + [Next(b)] == [Next(a), Next(b)] && [] + [Complete] == [Complete];
    assert [] + [Next(Pair(a, b))] == [Next(Pair(a, b))];
  }

  /** The second pair gets nothing through and stops the run. */
  lemma SecondPair(a: Val, b: Val, calls: seq<Signal>, taken: seq<Signal>)
    ensures OnNext(Link(Unzip, calls, OneTaken(2, taken, a, [Complete])), Pair(a, b))
         == Pushed(Link(Unzip, calls + [Next(Pair(a, b))],
                        OneTaken(4, taken + [Next(a)] + [Next(b)], a, [Complete] + [Complete] + [Complete])), Stop)
  {
    OneTakenStops(2, taken, a, [Complete], a);
    OneTakenStops(3, taken + [Next(a)], a, [Complete] + [Complete], b);
  }

  /** The limits of this chain do not run out once: two pairs through `Unzip` and `Take(1)` complete the
      sink three times. */
  lemma UnzipMayCompleteAgain(a: Val, b: Val)
    ensures
      var ran := Run(UnzipTakeOne(), [Pair(a, b), Pair(a, b)]);
      Wired(ran.chain) && Completions(SinkOf(ran.chain).heard) == 3
  {
    var p, ends := Pair(a, b), [Complete] + [Complete] + [Complete];
    FirstPair(a, b);
    SecondPair(a, b, [Next(p)], [Next(a), Next(b)]);
    var c1 := OnNext(UnzipTakeOne(), p).chain;
    var c2 := OnNext(c1, p).chain;
    assert Run(c1, [p]) == Ran(c2, 1, Stop);
    assert [p, p][1..] == [p];
    assert Run(UnzipTakeOne(), [p, p]).chain == c2;
    assert Wired(c2) && SinkOf(c2) == SinkOf(c2.next) == c2.next.next;
    CompletionsAppend([Next(a)], ends);
    CompletionsAppend([Complete] + [Complete], [Complete]);
    CompletionsAppend([Complete], [Complete]);
    assert [Complete][1..] == [] && [Next(a)][1..] == [];
    assert Completions([Complete]) == 1 && Completions([Next(a)]) == 0;
  }

  // ---- how much of the source is pulled ----

  /** How many items of the source get anything at all to the sink. */
  function Rounds(c: Chain): Limit
    requires Wired(c)
  {
    if IsSink(c.op) then Unlimited
    else
      var below := Rounds(c.next);
      if c.op.Take? then Tighter(Left(c.op), below)
      else if c.op.Unzip? && below.AtMost? then AtMost((below.n + 1) / 2)
      else below
  }

  lemma {:induction false} OneRound(c: Chain, x: Val)
    requires Wired(c)
    ensures HasNext(Through(c, [Next(x)])) <==> Rounds(c) != AtMost(0)
    ensures Rounds(Feed(c, [Next(x)])) == OneLess(Rounds(c))
    decreases Depth(c)
  {
    if IsSink(c.op) {
      assert [Next(x)][0].Next?;
    } else if c.op.Unzip? {
      UnzipPush(c, x);
      OneRound(c.next, First(x));
      OneRound(Feed(c.next, [Next(First(x))]), Second(x));
    } else if c.op.Take? && Left(c.op) == 0 {
      SpentPush(c, x);
    } else {
      PlainPush(c, x);
      OneRound(c.next, if c.op.Take? then x else Onward(c.op, x));
    }
  }

  /** The smallest number of items any `Take` still lets through. */
  function Smallest(c: Chain): Limit
    requires Wired(c)
  {
    if IsSink(c.op) then Unlimited
    else
      var below := Smallest(c.next);
      if c.op.Take? then Tighter(Left(c.op), below) else below
  }

  lemma {:induction false} TakelessIsUnlimited(c: Chain)
    requires Wired(c) && !HasTake(c)
    ensures Smallest(c) == Rounds(c) == Budget(c) == Unlimited
  {
    if !IsSink(c.op) { TakelessIsUnlimited(c.next); }
  }

  /** Where no `Unzip` feeds a `Take`, all limits are the smallest one. */
  lemma {:induction false} TakesFirstIsSmallest(c: Chain)
    requires Wired(c) && TakesFirst(c)
    ensures Rounds(c) == Budget(c) == Smallest(c) && RunsOutOnce(c)
  {
    if !IsSink(c.op) {
      TakesFirstIsSmallest(c.next);
      if c.op.Unzip? { TakelessIsUnlimited(c.next); }
    }
  }

  lemma {:induction false} EmitKeepsNext(op: Op, ss: seq<Signal>)
    requires !op.Take? && HasNext(ss)
    ensures HasNext(Emit(op, ss).out)
    decreases |ss|
  {
    var first := EmitOne(op, ss[0]);
    EmitKeepsShape(op, [ss[0]]);
    EmitSingle(op, ss[0]);
    HasNextAppend(first.out, Emit(first.op, ss[1..]).out);
    if ss[0].Next? {
      assert first.out[0].Next?;
    } else {
      var i :| 0 <= i < |ss| && ss[i].Next?;
      assert ss[1..][i - 1].Next?;
      EmitKeepsNext(first.op, ss[1..]);
    }
  }

  lemma {:induction false} TakelessPasses(c: Chain, ss: seq<Signal>)
    requires Wired(c) && !HasTake(c) && HasNext(ss)
    ensures HasNext(Through(c, ss))
  {
    if !IsSink(c.op) {
      EmitKeepsNext(c.op, ss);
      TakelessPasses(c.next, Emit(c.op, ss).out);
    }
  }

  /** Without a `Take` an accepting chain always says "keep going". */
  lemma TakelessNeverStops(c: Chain, x: Val)
    requires Wired(c) && !HasTake(c) && Accepts(c)
    ensures OnNext(c, x).reply.Keep?
  {
    assert [Next(x)][0].Next?;
    TakelessPasses(c, [Next(x)]);
    KeepsExactly(c, x);
  }

  /** A run pulls the whole source, or one item more than get anything to the sink if that is less. */
  lemma {:induction false} PullsExactly(c: Chain, src: seq<Val>)
    requires Wired(c) && Accepts(c)
    ensures
      Run(c, src).pulled ==
        match Rounds(c)
        case Unlimited => |src|
        case AtMost(m) => if m + 1 < |src| then m + 1 else |src|
    decreases |src|
  {
    if src != [] {
      var x := src[0];
      PushIsFeed(c, x);
      KeepsExactly(c, x);
      OneRound(c, x);
      if OnNext(c, x).reply.Keep? {
        FeedKeepsAccepts(c, [Next(x)]);
        PullsExactly(Feed(c, [Next(x)]), src[1..]);
      }
    }
  }

  // ---- what the passing-through stages record ----

  /** The stages that send every item on unchanged and keep a record on the side. */
  predicate IsRecorder(op: Op) { op.Tee? || op.Do? || op.DoDebug? || op.DebugWhile? }

  function Record(op: Op): seq<Val>
    requires IsRecorder(op)
  {
    match op
    case Tee(sent, _) => sent
    case Do(seen) => seen
    case DoDebug(printed) => printed
    case DebugWhile(_, printed) => printed
  }

  function Filter(p: Val -> bool, xs: seq<Val>): seq<Val> {
    if xs == [] then [] else (if p(xs[0]) then [xs[0]] else []) + Filter(p, xs[1..])
  }

  /** What a recorder is for: all items, none once the queue's receiver is gone, or the chosen ones. */
  function Recorded(op: Op, xs: seq<Val>): seq<Val>
    requires IsRecorder(op)
  {
    match op
    case Tee(_, open) => if open then xs else []
    case DebugWhile(p, _) => Filter(p, xs)
    case _ => xs
  }

  lemma RecordOne(op: Op, x: Val, xs: seq<Val>)
    requires IsRecorder(op)
    ensures IsRecorder(After(op, x)) && Onward(op, x) == x
    ensures Record(op) + Recorded(op, [x] + xs) == Record(After(op, x)) + Recorded(After(op, x), xs)
  {
    assert ([x] + xs)[1..] == xs;
    match op
    case Tee(_, _) => Regrouped(Record(op), [x], xs);
    case Do(_) => Regrouped(Record(op), [x], xs);
    case DoDebug(_) => Regrouped(Record(op), [x], xs);
    case DebugWhile(p, _) =>
      Regrouped(Record(op), if p(x) then [x] else [], Filter(p, xs));
      assert Record(op) + [] == Record(op);
  }

  lemma RecordNone(op: Op)
    requires IsRecorder(op)
    ensures Record(op) + Recorded(op, []) == Record(op)
  {
  }

  lemma {:induction false} EmitPassesOn(op: Op, ss: seq<Signal>)
    requires IsRecorder(op)
    ensures Emit(op, ss).out == ss && IsRecorder(Emit(op, ss).op)
    decreases |ss|
  {
    if ss != [] {
      var first := EmitOne(op, ss[0]);
      assert first.out == [ss[0]] && IsRecorder(first.op);
      EmitPassesOn(first.op, ss[1..]);
    }
  }

  lemma {:induction false} EmitRecords(op: Op, ss: seq<Signal>)
    requires IsRecorder(op)
    ensures IsRecorder(Emit(op, ss).op)
    ensures Record(Emit(op, ss).op) == Record(op) + Recorded(op, Values(ss))
    decreases |ss|
  {
    if ss == [] {
      RecordNone(op);
    } else {
      var first, later := EmitOne(op, ss[0]).op, Values(ss[1..]);
      EmitOneRecords(op, ss[0], later);
      EmitRecords(first, ss[1..]);
      assert Emit(op, ss).op == Emit(first, ss[1..]).op;
      assert Values(ss) == (if ss[0].Next? then [ss[0].v] else []) + later;
    }
  }

  lemma EmitOneRecords(op: Op, s: Signal, later: seq<Val>)
    requires IsRecorder(op)
    ensures
      var next := EmitOne(op, s).op;
      && IsRecorder(next)
      && Record(op) + Recorded(op, (if s.Next? then [s.v] else []) + later) == Record(next) + Recorded(next, later)
  {
    if s.Next? {
      RecordOne(op, s.v, later);
    } else {
      assert [] + later == later;
    }
  }

  lemma FeedRecords(t: Chain, ss: seq<Signal>)
    requires Wired(t) && IsRecorder(t.op)
    ensures Wired(t.next) && IsRecorder(Feed(t, ss).op) && Feed(t, ss).next == Feed(t.next, ss)
    ensures Record(Feed(t, ss).op) == Record(t.op) + Recorded(t.op, Values(ss))
  {
    EmitPassesOn(t.op, ss);
    EmitRecords(t.op, ss);
  }

  /** Wherever a tee or a debugging stage sits, its subscriber is given exactly the items it got, which
      are the stages before it applied to the items pulled, and its record grows by all of them, or by
      those its predicate chose. */
  lemma RecordersCopyExactly(c: Chain, src: seq<Val>, k: nat)
    requires Wired(c) && IsRecorder(Tail(c, k).op)
    requires Tail(c, k).next.Link? && Tail(c, k).next.heard == []
    ensures Run(c, src).pulled <= |src| && Wired(Run(c, src).chain)
    ensures
      var t := Tail(Run(c, src).chain, k);
      var items := DenoteUpTo(c, k, src[..Run(c, src).pulled]);
      && IsRecorder(t.op) && t.next.Link?
      && Record(t.op) == Record(Tail(c, k).op) + Recorded(Tail(c, k).op, items)
      && Values(t.next.heard) == items
  {
    RunIsFeed(c, src);
    RunSignalsValues(c, src);
    TailOfFeed(c, k, RunSignals(c, src));
    var mine := Arrivals(c, k, RunSignals(c, src));
    FeedRecords(Tail(c, k), mine);
    assert [] + mine == mine;
  }

  lemma {:induction false} EmitTake(op: Op, ss: seq<Signal>)
    requires op.Take?
    ensures var got := |Values(ss)|;
      Emit(op, ss).op == Take(op.taken + got, op.max, op.notified || (got > 0 && op.taken + got > op.max))
    decreases |ss|
  {
    if ss != [] { EmitTake(EmitOne(op, ss[0]).op, ss[1..]); }
  }

  /** A fresh `Take` anywhere in the chain ends the run having counted every item it got, and having
      completed its subscriber exactly if they were more than its limit. */
  lemma TakeCountsExactly(c: Chain, src: seq<Val>, k: nat)
    requires Wired(c) && Tail(c, k).op.Take? && Tail(c, k).op.taken == 0 && !Tail(c, k).op.notified
    ensures Run(c, src).pulled <= |src| && Wired(Run(c, src).chain)
    ensures
      var n := |DenoteUpTo(c, k, src[..Run(c, src).pulled])|;
      var max := Tail(c, k).op.max;
      Tail(Run(c, src).chain, k).op == Take(n, max, n > max)
  {
    RunIsFeed(c, src);
    RunSignalsValues(c, src);
    TailOfFeed(c, k, RunSignals(c, src));
    EmitTake(Tail(c, k).op, Arrivals(c, k, RunSignals(c, src)));
  }

  /** Numbering starts at zero and goes on modulo 2^64: a run into a fresh `Enumerate` and a collector
      collects each item with its position. */
  lemma EnumerateNumbers(src: seq<Val>)
    ensures
      var c := Link(Enumerate(0), [], Link(Collect([]), [], Loose));
      && Wired(Run(c, src).chain)
      && Output(Run(c, src).chain)
         == seq(|src|, i requires 0 <= i < |src| => Pair(src[i], Atom(i % 0x1_0000_0000_0000_0000)))
  {
    var c := Link(Enumerate(0), [], Link(Collect([]), [], Loose));
    RunComputes(c, src);
    assert SinkOf(c) == c.next;
    assert Denote(c, src) == ListFunction(Enumerate(0), src);
    assert [] + Denote(c, src) == Denote(c, src);
  }
}
