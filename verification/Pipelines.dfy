/** The meaning of a chain: each stage as a function on lists, the chain as their composition, and
    the proof that pushing items one at a time through the objects computes it. */
module Pipelines {
  import opened Reactive
  import opened Sequences

  /** Every slot down to a sink is filled. */
  predicate Wired(c: Chain) {
    c.Link? && (IsSink(c.op) || Wired(c.next))
  }

  /** The sink accepts everything: a collector, or a queue whose receiver is alive. */
  predicate Accepts(c: Chain)
    requires Wired(c)
  {
    if IsSink(c.op) then c.op.Collect? || c.op.open else Accepts(c.next)
  }

  function SinkOf(c: Chain): (s: Chain)
    requires Wired(c)
    ensures s.Link? && IsSink(s.op)
  {
    if IsSink(c.op) then c else SinkOf(c.next)
  }

  /** What a collector holds, or what was sent down a queue. */
  function Output(c: Chain): seq<Val>
    requires Wired(c)
  {
    match SinkOf(c).op
    case Collect(items) => items
    case Decoupler(sent, _) => sent
  }

  function Values(ss: seq<Signal>): seq<Val> {
    if ss == [] then []
    else (if ss[0].Next? then [ss[0].v] else []) + Values(ss[1..])
  }

  lemma {:induction false} ValuesAppend(a: seq<Signal>, b: seq<Signal>)
    ensures Values(a + b) == Values(a) + Values(b)
  {
    if a == [] {
      assert a + b == b;
    } else {
      assert (a + b)[1..] == a[1..] + b;
      ValuesAppend(a[1..], b);
      Regrouped(if a[0].Next? then [a[0].v] else [], Values(a[1..]), Values(b));
    }
  }

  // ---- one stage on a whole list of calls ----

  datatype Emitted = Emitted(op: Op, out: seq<Signal>)

  function EmitOne(op: Op, s: Signal): Emitted {
    match s
    case Complete => Emitted(op, [Complete])
    case Next(x) =>
      match op
      case Unzip => Emitted(op, [Next(First(x)), Next(Second(x))])
      case Take(taken, max, notified) =>
        if taken + 1 > max then Emitted(Take(taken + 1, max, true), [Complete])
        else Emitted(Take(taken + 1, max, notified), [Next(x)])
      case _ => Emitted(After(op, x), [Next(Onward(op, x))])
  }

  /** The stage's state and everything it sent on, after the calls `ss`. */
  function Emit(op: Op, ss: seq<Signal>): Emitted
    decreases |ss|
  {
    if ss == [] then Emitted(op, [])
    else
      var first := EmitOne(op, ss[0]);
      var rest := Emit(first.op, ss[1..]);
      Emitted(rest.op, first.out + rest.out)
  }

  function Absorbed(op: Op, ss: seq<Signal>): Op
    requires IsSink(op)
  {
    match op
    case Collect(items) => Collect(items + Values(ss))
    case Decoupler(sent, open) => if open then Decoupler(sent + Values(ss), open) else op
  }

  lemma {:induction false} EmitKeepsKind(op: Op, ss: seq<Signal>)
    requires !IsSink(op)
    ensures !IsSink(Emit(op, ss).op)
    decreases |ss|
  {
    if ss != [] { EmitKeepsKind(EmitOne(op, ss[0]).op, ss[1..]); }
  }

  /** Stage after stage: each stage handles all the calls before the next stage sees any. */
  function Feed(c: Chain, ss: seq<Signal>): (r: Chain)
    requires Wired(c)
    ensures Wired(r)
  {
    if IsSink(c.op) then Link(Absorbed(c.op, ss), c.heard + ss, c.next)
    else
      EmitKeepsKind(c.op, ss);
      var e := Emit(c.op, ss);
      Link(e.op, c.heard + ss, Feed(c.next, e.out))
  }

  /** The calls that reach the sink. */
  function Through(c: Chain, ss: seq<Signal>): seq<Signal>
    requires Wired(c)
  {
    if IsSink(c.op) then ss else Through(c.next, Emit(c.op, ss).out)
  }

  lemma {:induction false} EmitAppend(op: Op, a: seq<Signal>, b: seq<Signal>)
    ensures
      var first := Emit(op, a);
      var second := Emit(first.op, b);
      Emit(op, a + b) == Emitted(second.op, first.out + second.out)
    decreases |a|
  {
    if a == [] {
      assert a + b == b;
    } else {
      assert (a + b)[1..] == a[1..] + b;
      EmitAppend(EmitOne(op, a[0]).op, a[1..], b);
    }
  }

  lemma {:induction false} FeedAppend(c: Chain, a: seq<Signal>, b: seq<Signal>)
    requires Wired(c)
    ensures Feed(Feed(c, a), b) == Feed(c, a + b)
    ensures Through(c, a + b) == Through(c, a) + Through(Feed(c, a), b)
  {
    if IsSink(c.op) {
      ValuesAppend(a, b);
      assert (c.heard + a) + b == c.heard + (a + b);
      if c.op.Collect? {
        assert (c.op.items + Values(a)) + Values(b) == c.op.items + (Values(a) + Values(b));
      } else {
        assert (c.op.sent + Values(a)) + Values(b) == c.op.sent + (Values(a) + Values(b));
      }
    } else {
      EmitAppend(c.op, a, b);
      EmitKeepsKind(c.op, a);
      var first := Emit(c.op, a);
      FeedAppend(c.next, first.out, Emit(first.op, b).out);
      assert (c.heard + a) + b == c.heard + (a + b);
    }
  }

  lemma {:induction false} FeedNothing(c: Chain)
    requires Wired(c)
    ensures Feed(c, []) == c && Through(c, []) == []
  {
    assert c.heard + [] == c.heard;
    if IsSink(c.op) {
      if c.op.Collect? { assert c.op.items + [] == c.op.items; } else { assert c.op.sent + [] == c.op.sent; }
    } else {
      FeedNothing(c.next);
    }
  }

  lemma {:induction false} CompleteIsFeed(c: Chain)
    requires Wired(c)
    ensures OnComplete(c) == Pushed(Feed(c, [Complete]), Keep)
  {
    assert Emit(c.op, [Complete]) == Emitted(c.op, [Complete]) by { assert [Complete][1..] == []; }
    if IsSink(c.op) {
      assert Values([Complete]) == [];
      FeedNothing(c);
    } else {
      CompleteIsFeed(c.next);
    }
  }

  lemma EmitSingle(op: Op, s: Signal)
    ensures Emit(op, [s]) == EmitOne(op, s)
  {
    assert [s][1..] == [];
    var e := EmitOne(op, s);
    assert e.out + [] == e.out;
  }

  /** Two halves pushed one after the other are two calls fed at once. */
  lemma HalvesAreFed(c: Chain, x: Val)
    requires Wired(c) && c.op.Unzip? && Wired(c.next)
    requires
      var a := OnNext(c.next, First(x));
      a.chain == Feed(c.next, [Next(First(x))]) && !a.reply.Panic?
    requires
      var mid := Feed(c.next, [Next(First(x))]);
      var b := OnNext(mid, Second(x));
      b.chain == Feed(mid, [Next(Second(x))]) && !b.reply.Panic?
    ensures OnNext(c, x).chain == Feed(c, [Next(x)]) && !OnNext(c, x).reply.Panic?
  {
    var a, b := Next(First(x)), Next(Second(x));
    EmitSingle(c.op, Next(x));
    FeedAppend(c.next, [a], [b]);
    assert [a] + [b] == [a, b];
  }

  /** Pushing one item depth-first leaves every object, and every record of calls, as the
      stage-by-stage evaluation does; in a wired chain nothing panics. */
  lemma {:induction false} PushIsFeed(c: Chain, x: Val)
    requires Wired(c)
    ensures OnNext(c, x).chain == Feed(c, [Next(x)]) && !OnNext(c, x).reply.Panic?
    decreases Depth(c)
  {
    EmitSingle(c.op, Next(x));
    match c.op
    case Collect(_) => assert Values([Next(x)]) == [x];
    case Decoupler(_, _) => assert Values([Next(x)]) == [x];
    case Unzip =>
      PushIsFeed(c.next, First(x));
      FeedKeepsDepth(c.next, [Next(First(x))]);
      PushIsFeed(Feed(c.next, [Next(First(x))]), Second(x));
      HalvesAreFed(c, x);
    case Take(taken, max, _) =>
      if taken + 1 > max { CompleteIsFeed(c.next); } else { PushIsFeed(c.next, x); }
    case _ => PushIsFeed(c.next, Onward(c.op, x));
  }

  lemma {:induction false} FeedKeepsDepth(c: Chain, ss: seq<Signal>)
    requires Wired(c)
    ensures Depth(Feed(c, ss)) == Depth(c)
  {
    if !IsSink(c.op) { FeedKeepsDepth(c.next, Emit(c.op, ss).out); }
  }

  // ---- the boolean result ----

  predicate HasNext(ss: seq<Signal>) {
    exists i :: 0 <= i < |ss| && ss[i].Next?
  }

  /** Each item makes at least one call on the sink. */
  lemma {:induction false} SomethingArrives(c: Chain, ss: seq<Signal>)
    requires Wired(c) && ss != []
    ensures Through(c, ss) != []
  {
    if !IsSink(c.op) {
      assert Emit(c.op, ss).out != [] by { assert EmitOne(c.op, ss[0]).out != []; }
      SomethingArrives(c.next, Emit(c.op, ss).out);
    }
  }

  lemma {:induction false} FeedKeepsAccepts(c: Chain, ss: seq<Signal>)
    requires Wired(c)
    ensures Accepts(Feed(c, ss)) == Accepts(c)
  {
    if !IsSink(c.op) {
      EmitKeepsKind(c.op, ss);
      FeedKeepsAccepts(c.next, Emit(c.op, ss).out);
    }
  }

  /** `on_next` says "keep going" exactly when the sink accepts and was given at least one item,
      however many `Unzip`s split the item and `Take`s cut it off on the way. */
  lemma {:induction false} KeepsExactly(c: Chain, x: Val)
    requires Wired(c)
    ensures OnNext(c, x).reply.Keep? <==> Accepts(c) && HasNext(Through(c, [Next(x)]))
    decreases Depth(c)
  {
    EmitSingle(c.op, Next(x));
    match c.op
    case Collect(_) => assert [Next(x)][0].Next?;
    case Decoupler(_, _) => assert [Next(x)][0].Next?;
    case Unzip =>
      var a, b := Next(First(x)), Next(Second(x));
      PushIsFeed(c.next, First(x));
      var next := Feed(c.next, [a]);
      PushIsFeed(next, Second(x));
      KeepsExactly(c.next, First(x));
      FeedKeepsDepth(c.next, [a]);
      FeedKeepsAccepts(c.next, [a]);
      KeepsExactly(next, Second(x));
      FeedAppend(c.next, [a], [b]);
      assert [a] + [b] == [a, b];
      HasNextAppend(Through(c.next, [a]), Through(next, [b]));
    case Take(taken, max, _) =>
      if taken + 1 > max { OnlyCompletes(c.next, [Complete]); } else {
        KeepsExactly(c.next, x);
        PushIsFeed(c.next, x);
      }
    case _ =>
      KeepsExactly(c.next, Onward(c.op, x));
      PushIsFeed(c.next, Onward(c.op, x));
  }

  lemma HasNextAppend(a: seq<Signal>, b: seq<Signal>)
    ensures HasNext(a + b) <==> HasNext(a) || HasNext(b)
  {
    var ab := a + b;
    if i :| 0 <= i < |a| && a[i].Next? { assert ab[i].Next?; }
    if i :| 0 <= i < |b| && b[i].Next? { assert ab[|a| + i].Next?; }
  }

  lemma NoNextTail(ss: seq<Signal>)
    requires !HasNext(ss) && ss != []
    ensures ss[0].Complete? && !HasNext(ss[1..])
  {
    forall i | 0 <= i < |ss[1..]| ensures !ss[1..][i].Next? {
      assert ss[1..][i] == ss[i + 1];
    }
  }

  lemma {:induction false} EmitOnlyCompletes(op: Op, ss: seq<Signal>)
    requires !HasNext(ss)
    ensures Emit(op, ss) == Emitted(op, ss)
    decreases |ss|
  {
    if ss != [] {
      NoNextTail(ss);
      EmitOnlyCompletes(op, ss[1..]);
    }
  }

  /** A completion passes every stage as one completion and changes no state. */
  lemma {:induction false} OnlyCompletes(c: Chain, ss: seq<Signal>)
    requires Wired(c) && !HasNext(ss)
    ensures Through(c, ss) == ss
  {
    if !IsSink(c.op) {
      EmitOnlyCompletes(c.op, ss);
      OnlyCompletes(c.next, ss);
    }
  }

  // ---- early stop ----

  /** Some `Take` has reached its limit, or the queue's receiver is gone. */
  predicate Closed(c: Chain)
    requires Wired(c)
  {
    if IsSink(c.op) then !Accepts(c)
    else (c.op.Take? && c.op.taken >= c.op.max) || Closed(c.next)
  }

  /** "Stop" leaves the chain closed. */
  lemma {:induction false} StopCloses(c: Chain, x: Val)
    requires Wired(c) && OnNext(c, x).reply.Stop?
    ensures Closed(Feed(c, [Next(x)]))
    decreases Depth(c)
  {
    EmitSingle(c.op, Next(x));
    match c.op
    case Collect(_) =>
    case Decoupler(_, _) =>
    case Unzip =>
      var a, b := Next(First(x)), Next(Second(x));
      PushIsFeed(c.next, First(x));
      var next := Feed(c.next, [a]);
      PushIsFeed(next, Second(x));
      FeedKeepsDepth(c.next, [a]);
      StopCloses(next, Second(x));
      FeedAppend(c.next, [a], [b]);
      assert [a] + [b] == [a, b];
    case Take(taken, max, _) =>
      if taken + 1 <= max { StopCloses(c.next, x); }
    case _ => StopCloses(c.next, Onward(c.op, x));
  }

  lemma {:induction false} FullTakeEmitsCompletes(op: Op, ss: seq<Signal>)
    requires op.Take? && op.taken >= op.max
    ensures !HasNext(Emit(op, ss).out)
    ensures Emit(op, ss).op.Take? && Emit(op, ss).op.taken >= Emit(op, ss).op.max
    decreases |ss|
  {
    if ss != [] {
      var first := EmitOne(op, ss[0]);
      FullTakeEmitsCompletes(first.op, ss[1..]);
      HasNextAppend(first.out, Emit(first.op, ss[1..]).out);
    }
  }

  /** A closed chain stays closed, and nothing more gets out of it. */
  lemma {:induction false} ClosedForGood(c: Chain, ss: seq<Signal>)
    requires Wired(c) && Closed(c)
    ensures Closed(Feed(c, ss)) && Output(Feed(c, ss)) == Output(c)
    ensures Accepts(c) ==> !HasNext(Through(c, ss))
  {
    if IsSink(c.op) {
    } else {
      EmitKeepsKind(c.op, ss);
      var e := Emit(c.op, ss);
      if c.op.Take? && c.op.taken >= c.op.max {
        FullTakeEmitsCompletes(c.op, ss);
        OnlyCompletes(c.next, e.out);
        FeedOutput(c.next, e.out);
        NoNextNoValues(e.out);
      } else {
        ClosedForGood(c.next, e.out);
      }
    }
  }

  lemma {:induction false} NoNextNoValues(ss: seq<Signal>)
    requires !HasNext(ss)
    ensures Values(ss) == []
  {
    if ss != [] {
      NoNextTail(ss);
      NoNextNoValues(ss[1..]);
    }
  }

  lemma {:induction false} FeedOutput(c: Chain, ss: seq<Signal>)
    requires Wired(c)
    ensures Output(Feed(c, ss)) == if Accepts(c) then Output(c) + Values(Through(c, ss)) else Output(c)
    ensures SinkOf(Feed(c, ss)).heard == SinkOf(c).heard + Through(c, ss)
  {
    if !IsSink(c.op) {
      EmitKeepsKind(c.op, ss);
      FeedOutput(c.next, Emit(c.op, ss).out);
    }
  }

  /** Early stop is sound: after "stop", every later push also says "stop" and adds no output. */
  lemma StopIsFinal(c: Chain, x: Val, later: seq<Signal>, y: Val)
    requires Wired(c) && OnNext(c, x).reply.Stop?
    ensures
      var stopped := Feed(c, [Next(x)]);
      var c1 := Feed(stopped, later);
      var c2 := Feed(c1, [Next(y)]);
      && OnNext(c, x).chain == stopped
      && OnNext(c1, y) == Pushed(c2, Stop)
      && Output(c2) == Output(c1) == Output(stopped)
  {
    PushIsFeed(c, x);
    StopCloses(c, x);
    var stopped := Feed(c, [Next(x)]);
    var c1 := Feed(stopped, later);
    ClosedForGood(stopped, later);
    ClosedForGood(c1, [Next(y)]);
    PushIsFeed(c1, y);
    KeepsExactly(c1, y);
  }

  // ---- the list functions ----

  /** `Reduce` as a list function: the outputs of a running fold. */
  function Scan(h: (Val, Val) -> (Val, Val), state: Val, xs: seq<Val>): seq<Val>
    decreases |xs|
  {
    if xs == [] then [] else [h(state, xs[0]).1] + Scan(h, h(state, xs[0]).0, xs[1..])
  }

  /** What each stage is for: map, running fold, zip with index, flatten pairs, prefix, identity. */
  function ListFunction(op: Op, xs: seq<Val>): seq<Val> {
    match op
    case Map(f) => seq(|xs|, i requires 0 <= i < |xs| => f(xs[i]))
    case MapVal1(g, val) => seq(|xs|, i requires 0 <= i < |xs| => g(xs[i], val))
    case Reduce(h, state) => Scan(h, state, xs)
    case Enumerate(count) => seq(|xs|, i requires 0 <= i < |xs| => Pair(xs[i], Atom((count + i) % U64)))
    case Unzip =>
      seq(2 * |xs|, i requires 0 <= i < 2 * |xs| => if i % 2 == 0 then First(xs[i / 2]) else Second(xs[i / 2]))
    case Take(taken, max, _) => if taken + |xs| <= max then xs else if taken <= max then xs[..max - taken] else []
    case _ => xs
  }

  /** The composition of the stages' list functions. */
  function Denote(c: Chain, xs: seq<Val>): seq<Val>
    requires Wired(c)
  {
    if IsSink(c.op) then xs else Denote(c.next, ListFunction(c.op, xs))
  }

  lemma UnzipStep(x: Val, xs: seq<Val>)
    ensures ListFunction(Unzip, [x] + xs) == [First(x), Second(x)] + ListFunction(Unzip, xs)
  {
    var all := [x] + xs;
    var left, right := ListFunction(Unzip, all), [First(x), Second(x)] + ListFunction(Unzip, xs);
    forall i | 0 <= i < 2 * |all| ensures left[i] == right[i] {
      if i >= 2 { assert i / 2 == (i - 2) / 2 + 1; }
    }
  }

  lemma EnumerateStep(count: Count, x: Val, xs: seq<Val>)
    ensures ListFunction(Enumerate(count), [x] + xs)
         == [Pair(x, Atom(count))] + ListFunction(Enumerate((count + 1) % U64), xs)
  {
    var all := [x] + xs;
    var left := ListFunction(Enumerate(count), all);
    var right := [Pair(x, Atom(count))] + ListFunction(Enumerate((count + 1) % U64), xs);
    forall i | 0 <= i < |all| ensures left[i] == right[i] {
      if i > 0 { assert ((count + 1) % U64 + (i - 1)) % U64 == (count + i) % U64; }
    }
  }

  lemma MapStep(op: Op, x: Val, xs: seq<Val>)
    requires op.Map? || op.MapVal1?
    ensures ListFunction(op, [x] + xs) == [Onward(op, x)] + ListFunction(op, xs)
  {
    var all := [x] + xs;
    var left, right := ListFunction(op, all), [Onward(op, x)] + ListFunction(op, xs);
    forall i | 0 <= i < |all| ensures left[i] == right[i] {
      if i > 0 { assert all[i] == xs[i - 1]; }
    }
  }

  lemma TakeStep(op: Op, x: Val, xs: seq<Val>)
    requires op.Take?
    ensures
      var e := EmitOne(op, Next(x));
      ListFunction(op, [x] + xs) == Values(e.out) + ListFunction(e.op, xs)
  {
    ValuesOfOne(x);
    var all := [x] + xs;
    var n := op.max - op.taken;
    if 0 < n <= |all| {
      assert all[..n] == [x] + xs[..n - 1];
    }
  }

  /** The list function of a stage that sends on one item for one, unfolded by one item. */
  lemma PlainStep(op: Op, x: Val, xs: seq<Val>)
    requires !IsSink(op) && !op.Unzip? && !op.Take?
    ensures ListFunction(op, [x] + xs) == [Onward(op, x)] + ListFunction(After(op, x), xs)
  {
    if op.Map? || op.MapVal1? {
      MapStep(op, x, xs);
    } else if op.Enumerate? {
      EnumerateStep(op.count, x, xs);
    } else if op.Reduce? {
      assert ([x] + xs)[1..] == xs;
    }
  }

  /** The list function of any stage, unfolded by one item. */
  lemma ListFunctionStep(op: Op, x: Val, xs: seq<Val>)
    requires !IsSink(op)
    ensures
      var e := EmitOne(op, Next(x));
      ListFunction(op, [x] + xs) == Values(e.out) + ListFunction(e.op, xs)
  {
    if op.Unzip? {
      UnzipStep(x, xs);
      ValuesOfTwo(First(x), Second(x));
    } else if op.Take? {
      TakeStep(op, x, xs);
    } else {
      PlainStep(op, x, xs);
      ValuesOfOne(Onward(op, x));
      assert EmitOne(op, Next(x)) == Emitted(After(op, x), [Next(Onward(op, x))]);
    }
  }

  lemma ValuesOfTwo(a: Val, b: Val)
    ensures Values([Next(a), Next(b)]) == [a, b]
  {
    ValuesOfOne(a);
    ValuesOfOne(b);
    ValuesAppend([Next(a)], [Next(b)]);
    assert [Next(a)] + [Next(b)] == [Next(a), Next(b)];
  }

  lemma ValuesOfOne(x: Val)
    ensures Values([Next(x)]) == [x] && Values([Complete]) == []
  {
    assert [Next(x)][1..] == [] && [Complete][1..] == [];
  }

  lemma {:induction false} EmitComputes(op: Op, ss: seq<Signal>)
    requires !IsSink(op)
    ensures Values(Emit(op, ss).out) == ListFunction(op, Values(ss))
    decreases |ss|
  {
    if ss != [] {
      var e := EmitOne(op, ss[0]);
      EmitKeepsKind(op, [ss[0]]);
      EmitSingle(op, ss[0]);
      EmitComputes(e.op, ss[1..]);
      ValuesAppend(e.out, Emit(e.op, ss[1..]).out);
      if ss[0].Next? {
        ListFunctionStep(op, ss[0].v, Values(ss[1..]));
      } else {
        ValuesOfOne(Atom(0));
        assert Values(ss) == [] + Values(ss[1..]) == Values(ss[1..]);
        assert Values(e.out) == [] && e.op == op;
      }
    }
  }

  /** The items that reach the sink are the composed list functions of the items pushed. */
  lemma {:induction false} ThroughComputes(c: Chain, ss: seq<Signal>)
    requires Wired(c)
    ensures Values(Through(c, ss)) == Denote(c, Values(ss))
  {
    if !IsSink(c.op) {
      EmitComputes(c.op, ss);
      ThroughComputes(c.next, Emit(c.op, ss).out);
    }
  }
}
