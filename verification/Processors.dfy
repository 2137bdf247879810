/** The subscriber objects. Trait objects become one class whose
    `op` says which implementation it is and holds that implementation's fields. */
module Processors {
  import opened Reactive

  class Subscriber {
    var op: Op
    var subscriber: Subscriber?
    ghost var heard: seq<Signal>
    ghost var Repr: set<object>

    /** Boxes own what they feed: the chain is a list without sharing. */
    ghost predicate Valid()
      reads this, Repr
      decreases Repr
    {
      && this in Repr
      && (IsSink(op) ==> subscriber == null)
      && (subscriber != null ==>
            && subscriber in Repr && subscriber.Repr < Repr && this !in subscriber.Repr
            && subscriber.Valid())
    }

    ghost function Model(): (c: Chain)
      requires Valid()
      reads this, Repr
      ensures c.Link?
      decreases Repr
    {
      Link(op, heard, if subscriber == null then Loose else subscriber.Model())
    }

    constructor (op: Op)
      ensures Valid() && Model() == Link(op, [], Loose) && fresh(Repr)
    {
      this.op := op;
      subscriber := null;
      heard := [];
      Repr := {this};
    }

    /** Fill the subscriber slot of a processor; whatever was in it is dropped. */
    method Subscribe(s: Subscriber)
      requires Valid() && !IsSink(op) && s.Valid() && this !in s.Repr
      modifies this
      ensures Valid() && Repr == {this} + s.Repr
      ensures Model() == Link(old(op), old(heard), s.Model())
    {
      subscriber := s;
      Repr := {this} + s.Repr;
    }

    method OnComplete() returns (r: Reply)
      requires Valid()
      modifies Repr
      ensures Valid() && Repr == old(Repr)
      ensures Pushed(Model(), r) == Reactive.OnComplete(old(Model()))
      decreases Repr, 0
    {
      heard := heard + [Complete];
      if IsSink(op) { return Keep; }
      if subscriber == null { return Panic; }
      r := subscriber.OnComplete();
    }

    /** Take the new state, then call the subscriber. */
    method Forward(state: Op, y: Val) returns (r: Reply)
      requires Valid() && subscriber != null && !IsSink(state)
      modifies Repr
      ensures Valid() && Repr == old(Repr) && subscriber == old(subscriber)
      ensures var pushed := Reactive.OnNext(old(Model().next), y);
        Model() == Link(state, old(heard), pushed.chain) && r == pushed.reply
      decreases Repr, 0
    {
      op := state;
      r := subscriber.OnNext(y);
    }

    /** `Unzip`: both halves are always pushed; the results are or-ed. */
    method ForwardBoth(a: Val, b: Val) returns (r: Reply)
      requires Valid() && subscriber != null && op.Unzip?
      modifies Repr
      ensures Valid() && Repr == old(Repr)
      ensures var first := Reactive.OnNext(old(Model().next), a);
        if first.reply.Panic? then Model() == Link(op, old(heard), first.chain) && r == Panic
        else var second := Reactive.OnNext(first.chain, b);
          && Model() == Link(op, old(heard), second.chain)
          && r == if second.reply.Panic? then Panic
                  else if first.reply.Keep? || second.reply.Keep? then Keep else Stop
      ensures op == old(op)
      decreases Repr, 1
    {
      var first := Forward(op, a);
      if first.Panic? { return Panic; }
      var second := Forward(op, b);
      r := if second.Panic? then Panic else if first.Keep? || second.Keep? then Keep else Stop;
    }

    /** `Take`: count the item; past the limit, complete the subscriber and remember having done so. */
    method Ration(x: Val) returns (r: Reply)
      requires Valid() && subscriber != null && op.Take?
      modifies Repr
      ensures Valid() && Repr == old(Repr)
      ensures
        var counted := Take(old(op).taken + 1, old(op).max, old(op).notified);
        if counted.taken > counted.max then
          var done := Reactive.OnComplete(old(Model().next));
          && Model() == Link(if done.reply.Panic? then counted else counted.(notified := true), old(heard), done.chain)
          && r == if done.reply.Panic? then Panic else Stop
        else
          var pushed := Reactive.OnNext(old(Model().next), x);
          Model() == Link(counted, old(heard), pushed.chain) && r == pushed.reply
      decreases Repr, 1
    {
      op := op.(taken := op.taken + 1);
      if op.taken <= op.max {
        r := Forward(op, x);
      } else {
        r := subscriber.OnComplete();
        if !r.Panic? {
          op := op.(notified := true);
          r := Stop;
        }
      }
    }

    /** The bodies of the implementations that send on exactly one item for the one they got. */
    static method Transform(op: Op, x: Val) returns (state: Op, y: Val)
      requires !IsSink(op) && !op.Reduce? && !op.Unzip? && !op.Take?
      ensures state == After(op, x) && y == Onward(op, x) && !IsSink(state)
    {
      state, y := op, x;
      match op {
        case Map(f) => y := f(x);
        case MapVal1(g, val) => y := g(x, val);
        case Enumerate(count) => state, y := Enumerate((count + 1) % U64), Pair(x, Atom(count));
        case Tee(sent, open) => if open { state := Tee(sent + [x], open); }
        case Do(seen) => state := Do(seen + [x]);
        case DoDebug(printed) => state := DoDebug(printed + [x]);
        case DebugWhile(p, printed) => if p(x) { state := DebugWhile(p, printed + [x]); }
      }
    }

    method PassOn(x: Val) returns (r: Reply)
      requires Valid() && subscriber != null && !IsSink(op) && !op.Reduce? && !op.Unzip? && !op.Take?
      modifies Repr
      ensures Valid() && Repr == old(Repr)
      ensures var pushed := Reactive.OnNext(old(Model().next), Onward(old(op), x));
        Model() == Link(After(old(op), x), old(heard), pushed.chain) && r == pushed.reply
      decreases Repr, 1
    {
      var state, y := Transform(op, x);
      r := Forward(state, y);
    }

    method OnNext(x: Val) returns (r: Reply)
      requires Valid()
      modifies Repr
      ensures Valid() && Repr == old(Repr)
      ensures Pushed(Model(), r) == Reactive.OnNext(old(Model()), x)
      decreases Repr, 2
    {
      heard := heard + [Next(x)];
      match op {
        case Collect(items) =>
          op := Collect(items + [x]);
          return Keep;
        case Decoupler(sent, open) =>
          if open { op := Decoupler(sent + [x], open); }
          return if open then Keep else Stop;
        case Reduce(h, state) =>
          var (newState, outVal) := h(state, x);
          op := Reduce(h, newState);
          if subscriber == null { return Keep; }
          r := Forward(op, outVal);
        case Unzip =>
          if subscriber == null { return Keep; }
          r := ForwardBoth(First(x), Second(x));
        case Take(_, _, _) =>
          if subscriber == null { return Keep; }
          r := Ration(x);
        case _ =>
          if subscriber == null { return Keep; }
          r := PassOn(x);
      }
    }
  }
}
