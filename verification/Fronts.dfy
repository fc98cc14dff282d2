// A chain cut in two. A tail that gives every event back as it was cannot be told, by the
// filters before it, from any other: they behave as if they were the whole chain.
module Fronts {
  import opened Events
  import opened Stages
  import opened Chain
  import BR = Barrier
  import PK = PressureToKey

  // Tails that give every event back: those that start with a barrier, whatever follows
  // it, and commit filters at the end.
  predicate Quiet(w: seq<Stage>) {
    w != [] && (w[0].Barrier? || (w[0].Commit? && |w| == 1))
  }

  lemma StaysQuiet(w: seq<Stage>, w': seq<Stage>)
    requires Quiet(w) && SameFilters(w', w)
    ensures Quiet(w')
  {
    SameTails(w', w);
    SameKind(w'[0], w[0]);
  }

  lemma QuietReturns(w: seq<Stage>, e: Event)
    requires Valid(w) && Quiet(w)
    ensures Push(w, e).ev == e
  {
    var rest, out := w[1..], Step(w[0], e).1;
    AllComeBack(rest, out, e);
    if w[0].Commit? {
      PushOne(rest, e, e);
    }
  }

  // One event into a chain with such a tail: the front does what it does alone, and the
  // tail gets what leaves the front.
  lemma {:induction false} PushFront(c: seq<Stage>, w: seq<Stage>, e: Event)
    requires Valid(c) && Valid(w) && Quiet(w)
    ensures var p := Push(c, e);
            var q := PushEach(w, p.out);
            Push(c + w, e) == Pushed(p.chain + q.0, q.1, p.ev)
    decreases |c|, 0
  {
    hide Step, Lent, Quiet, PushEach;
    var p := Push(c, e);
    if c == [] {
      assert c + w == w;
      PushEachOne(w, e);
      QuietReturns(w, e);
    } else {
      var rest := c[1..];
      assert (c + w)[0] == c[0] && (c + w)[1..] == rest + w;
      if c[0].PressureToKey? {
        PushFront(rest, w, e);
        var down := Push(rest, e);
        var (t, generated) := PK.After(c[0].pressure, down.ev);
        var w1 := PushEach(w, down.out).0;
        PushKeeps(rest, e);
        EachKeeps(w, down.out);
        StaysQuiet(w, w1);
        EachFront(down.chain, w1, generated, down.ev);
        var again := PushAll(down.chain, generated, down.ev);
        PushEachAppend(w, down.out, again.out);
        Associate(PressureToKey(t), again.chain, PushEach(w1, again.out).0);
      } else {
        var (s, out) := Step(c[0], e);
        EachFront(rest, w, out, Lent(c[0], e));
        var down := PushAll(rest, out, Lent(c[0], e));
        Associate(s, down.chain, PushEach(w, down.out).0);
      }
    }
  }

  lemma Associate(s: Stage, a: seq<Stage>, b: seq<Stage>)
    ensures [s] + (a + b) == ([s] + a) + b
  {
  }

  lemma EachKeeps(c: seq<Stage>, es: seq<Event>)
    requires Valid(c)
    ensures SameFilters(PushEach(c, es).0, c) && Valid(PushEach(c, es).0)
  {
    PushAllKeeps(c, es, NOTHING);
  }

  // The same for several events.
  lemma {:induction false} EachFront(c: seq<Stage>, w: seq<Stage>, es: seq<Event>, ev: Event)
    requires Valid(c) && Valid(w) && Quiet(w)
    ensures var p := PushAll(c, es, ev);
            var q := PushEach(w, p.out);
            PushAll(c + w, es, ev) == Pushed(p.chain + q.0, q.1, p.ev)
    decreases |c|, |es| + 1
  {
    hide Push, Quiet;
    if es == [] {
      assert PushEach(w, []) == (w, []);
    } else {
      var init, e := es[..|es| - 1], es[|es| - 1];
      EachFront(c, w, init, ev);
      var before := PushAll(c, init, ev);
      var w1 := PushEach(w, before.out).0;
      PushAllKeeps(c, init, ev);
      EachKeeps(w, before.out);
      StaysQuiet(w, w1);
      PushFront(before.chain, w1, e);
      PushEachAppend(w, before.out, Push(before.chain, e).out);
    }
  }

  // And for a whole run.
  lemma RunFront(c: seq<Stage>, w: seq<Stage>, es: seq<Event>)
    requires Valid(c) && Valid(w) && Quiet(w)
    ensures var p := PushEach(c, es);
            var q := PushEach(w, p.1);
            PushEach(c + w, es) == (p.0 + q.0, q.1)
  {
    hide PushAll, Quiet;
    EachFront(c, w, es, NOTHING);
  }

  // A barrier in front shapes the stream that is pushed into the rest.
  lemma {:induction false} BarrierFront(b: BR.State, v: seq<Stage>, es: seq<Event>)
    ensures var (b', out) := Run(BR.Step, b, es);
            var q := PushEach(v, out);
            PushEach([Barrier(b)] + v, es) == ([Barrier(b')] + q.0, q.1)
    decreases |es|
  {
    hide Push, BR.Step, PushAll;
    var c := [Barrier(b)] + v;
    if es == [] {
      PushEachNothing(c);
      PushEachNothing(v);
    } else {
      var init, e := es[..|es| - 1], es[|es| - 1];
      BarrierFront(b, v, init);
      var (b1, out1) := Run(BR.Step, b, init);
      var v1 := PushEach(v, out1).0;
      assert es == init + [e];
      PushEachAppend(c, init, [e]);
      PushEachOne([Barrier(b1)] + v1, e);
      BarrierPush(b1, v1, e);
      PushEachAppend(v, out1, BR.Step(b1, e).1);
    }
  }

  lemma BarrierPush(b: BR.State, v: seq<Stage>, e: Event)
    ensures var (b', out) := BR.Step(b, e);
            var q := PushEach(v, out);
            var r := Push([Barrier(b)] + v, e);
            (r.chain, r.out) == ([Barrier(b')] + q.0, q.1)
  {
    hide PushAll, BR.Step;
    var c := [Barrier(b)] + v;
    assert c[1..] == v;
    AnyStart(v, BR.Step(b, e).1, e, NOTHING);
  }
}
