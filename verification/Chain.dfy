// A chain of filters as the code runs it (src/evf_struct.h:38-60): an event is pushed
// into the first filter, which hands it on before it returns. The event is passed by
// reference, so a filter that looks at it again sees what its successors made of it.
module Chain {
  import opened Events
  import opened Stages
  import PK = PressureToKey
  import FH = FilterToHandle

  // The event pushed before any was.
  const NOTHING := Event(0, 0, 0)

  datatype Pushed = Pushed(chain: seq<Stage>, out: seq<Event>, ev: Event)

  // One event through the chain: the filters afterwards, the events that leave the last
  // one, and what the event itself has become when the first filter's modify returns.
  function Push(c: seq<Stage>, ev: Event): (r: Pushed)
    ensures |r.chain| == |c|
    decreases |c|, 0
  {
    if c == [] then Pushed(c, [ev], ev)
    else if c[0].PressureToKey? then
      // hands the event on first and reads it afterwards
      var down := Push(c[1..], ev);
      var (t, generated) := PK.After(c[0].pressure, down.ev);
      var again := PushAll(down.chain, generated, down.ev);
      Pushed([PressureToKey(t)] + again.chain, down.out + again.out, again.ev)
    else
      var (s, out) := Step(c[0], ev);
      var down := PushAll(c[1..], out, Lent(c[0], ev));
      Pushed([s] + down.chain, down.out, down.ev)
  }

  // Several events one after the other; `ev` is what the last one has become.
  function PushAll(c: seq<Stage>, es: seq<Event>, ev: Event): (r: Pushed)
    ensures |r.chain| == |c|
    decreases |c|, |es| + 1
  {
    if es == [] then Pushed(c, [], ev)
    else
      var before := PushAll(c, es[..|es| - 1], ev);
      var last := Push(before.chain, es[|es| - 1]);
      last.(out := before.out + last.out)
  }

  // What a filter's own dealings with a handle make of the event.
  function Lent(s: Stage, ev: Event): Event {
    if s.FilterToHandle? then s.handle.Returned(ev) else ev
  }

  // A run of the chain as the code performs it, one event at a time: the filters
  // afterwards, and the stream that has left.
  function PushEach(c: seq<Stage>, es: seq<Event>): (r: (seq<Stage>, seq<Event>))
    ensures |r.0| == |c|
  {
    var r := PushAll(c, es, NOTHING);
    (r.chain, r.out)
  }

  lemma PushOne(c: seq<Stage>, e: Event, ev: Event)
    ensures PushAll(c, [e], ev) == Push(c, e)
  {
    hide Push;
    assert [e][..0] == [] && [] + Push(c, e).out == Push(c, e).out;
  }

  lemma {:induction false} PushAllAppend(c: seq<Stage>, a: seq<Event>, b: seq<Event>, ev: Event)
    ensures var first := PushAll(c, a, ev);
            var second := PushAll(first.chain, b, first.ev);
            PushAll(c, a + b, ev) == second.(out := first.out + second.out)
    decreases |b|
  {
    hide Push;
    var first := PushAll(c, a, ev);
    if b == [] {
      assert a + b == a && first.out + [] == first.out;
    } else {
      var init, e := b[..|b| - 1], b[|b| - 1];
      PushAllAppend(c, a, init, ev);
      assert (a + b)[..|a + b| - 1] == a + init;
      var second := PushAll(first.chain, init, first.ev);
      var last := Push(second.chain, e).out;
      assert (first.out + second.out) + last == first.out + (second.out + last);
    }
  }

  // What was pushed before only matters when nothing is.
  lemma {:induction false} AnyStart(c: seq<Stage>, es: seq<Event>, ev: Event, ev': Event)
    ensures var r, r' := PushAll(c, es, ev), PushAll(c, es, ev');
            r.chain == r'.chain && r.out == r'.out && (es != [] ==> r == r')
    decreases |es|
  {
    hide Push;
    if es != [] { AnyStart(c, es[..|es| - 1], ev, ev'); }
  }

  lemma PushEachNothing(c: seq<Stage>)
    ensures PushEach(c, []) == (c, [])
  {
  }

  lemma PushEachOne(c: seq<Stage>, e: Event)
    ensures PushEach(c, [e]) == (Push(c, e).chain, Push(c, e).out)
  {
    hide Push;
    PushOne(c, e, NOTHING);
  }

  lemma PushEachAppend(c: seq<Stage>, a: seq<Event>, b: seq<Event>)
    ensures var (c1, out1) := PushEach(c, a);
            var (c2, out2) := PushEach(c1, b);
            PushEach(c, a + b) == (c2, out1 + out2)
  {
    hide Push, PushAll;
    PushAllAppend(c, a, b, NOTHING);
    AnyStart(PushEach(c, a).0, b, PushAll(c, a, NOTHING).ev, NOTHING);
  }

  // A filter that never passes a pressure event on in the call that brought it.
  predicate Stops(s: Stage) {
    s.Barrier? || Diverts(s)
  }

  predicate Diverts(s: Stage) {
    s.FilterToHandle? && s.handle.kind == EV_ABS && s.handle.code == ABS_PRESSURE
  }

  // A filter that may rewrite a pressure event, or have it rewritten behind its handle.
  predicate Loses(s: Stage) {
    s.PressureToKey? || (Diverts(s) && s.handle.receiver.rewrites)
  }

  // A pressure event pushed into this chain reaches a filter that may rewrite it.
  predicate Hits(c: seq<Stage>)
    decreases |c|
  {
    c != [] && (Loses(c[0]) || (!Stops(c[0]) && Hits(c[1..])))
  }

  // Can a pressure event leave s, if one can arrive when `live`?
  predicate Passes(s: Stage, live: bool) {
    if s.Barrier? then (live && s.barrier.size > 0) || HoldsPressure(s.barrier.queue)
    else live && !Stops(s)
  }

  predicate HoldsPressure(es: seq<Event>) {
    exists i :: 0 <= i < |es| && IsPressure(es[i])
  }

  // No PressureToKey that pressure can reach hands it on, within the same call, to a
  // filter that may rewrite it.
  predicate Clean(c: seq<Stage>, live: bool)
    decreases |c|
  {
    c == [] || (Clean(c[1..], Passes(c[0], live))
                && (c[0].PressureToKey? && live ==> !Hits(c[1..])))
  }

  lemma {:induction false} SameHits(a: seq<Stage>, b: seq<Stage>)
    requires SameFilters(a, b)
    ensures Hits(a) == Hits(b)
    decreases |a|
  {
    if a != [] {
      assert Fresh(a[0]) == Fresh(b[0]);
      SameHits(a[1..], b[1..]);
    }
  }

  lemma {:induction false} PushKeeps(c: seq<Stage>, ev: Event)
    requires Valid(c)
    ensures var c' := Push(c, ev).chain;
            SameFilters(c', c) && Valid(c')
    decreases |c|, 0
  {
    hide Step, Fresh, ValidStage, Lent;
    if c != [] {
      var c', rest := Push(c, ev).chain, c[1..];
      StepKeepsKind(c[0], ev);
      if c[0].PressureToKey? {
        PushKeeps(rest, ev);
        var down := Push(rest, ev);
        var (t, generated) := PK.After(c[0].pressure, down.ev);
        PushAllKeeps(down.chain, generated, down.ev);
        AfterKeeps(c[0].pressure, down.ev);
      } else {
        PushAllKeeps(rest, Step(c[0], ev).1, Lent(c[0], ev));
      }
      forall i | 0 <= i < |c| ensures Fresh(c'[i]) == Fresh(c[i]) && ValidStage(c'[i]) {
        if i > 0 { assert c'[i] == c'[1..][i - 1] && c[i] == rest[i - 1]; }
      }
    }
  }

  lemma AfterKeeps(t: PK.State, ev: Event)
    ensures var t' := PK.After(t, ev).0;
            Fresh(PressureToKey(t')) == Fresh(PressureToKey(t)) && ValidStage(PressureToKey(t'))
  {
  }

  lemma {:induction false} PushAllKeeps(c: seq<Stage>, es: seq<Event>, ev: Event)
    requires Valid(c)
    ensures var c' := PushAll(c, es, ev).chain;
            SameFilters(c', c) && Valid(c')
    decreases |c|, |es| + 1
  {
    hide Push, Fresh, ValidStage;
    if es != [] {
      PushAllKeeps(c, es[..|es| - 1], ev);
      PushKeeps(PushAll(c, es[..|es| - 1], ev).chain, es[|es| - 1]);
    }
  }

  // What a filter other than PressureToKey hands on last is the event it was given, as
  // far as pressure and syncs are concerned; if it hands on nothing, the event comes
  // straight back, unless the handle has rewritten it.
  lemma LastOut(s: Stage, ev: Event)
    requires !s.PressureToKey?
    ensures var out := Step(s, ev).1;
            && (IsPressure(ev) && Stops(s) ==> out == [])
            && (out != [] && (IsPressure(ev) || IsSyn(ev)) ==> out[|out| - 1] == ev)
            && (out != [] && !IsPressure(ev) ==> !IsPressure(out[|out| - 1]))
    ensures MayBecome(ev, Lent(s, ev), Loses(s))
  {
    if s.FilterToHandle? { FH.ReturnedLaw(s.handle, ev); }
  }

  // What becomes of an event lent to a chain: only a pressure event that a filter of the
  // chain may rewrite can come back changed in a way that matters. Filters behind a
  // handle are taken to keep the same law.
  lemma {:induction false} ComesBack(c: seq<Stage>, ev: Event)
    requires Valid(c)
    ensures MayBecome(ev, Push(c, ev).ev, Hits(c))
    decreases |c|, 0
  {
    hide Step, Stops, Lent;
    if c != [] {
      var rest := c[1..];
      if c[0].PressureToKey? {
        ComesBack(rest, ev);
        var down := Push(rest, ev);
        var generated := PK.After(c[0].pressure, down.ev).1;
        PushKeeps(rest, ev);
        AllComeBack(down.chain, generated, down.ev);
      } else {
        LastOut(c[0], ev);
        AllComeBack(rest, Step(c[0], ev).1, Lent(c[0], ev));
      }
    }
  }

  lemma {:induction false} AllComeBack(c: seq<Stage>, es: seq<Event>, ev: Event)
    requires Valid(c)
    ensures var back := PushAll(c, es, ev).ev;
            if es == [] then back == ev else MayBecome(es[|es| - 1], back, Hits(c))
    decreases |c|, |es| + 1
  {
    hide Push, Hits;
    if es != [] {
      var before := PushAll(c, es[..|es| - 1], ev).chain;
      PushAllKeeps(c, es[..|es| - 1], ev);
      SameHits(before, c);
      ComesBack(before, es[|es| - 1]);
    }
  }

  predicate Arrives(es: seq<Event>, live: bool) {
    forall i :: 0 <= i < |es| && IsPressure(es[i]) ==> live
  }

  lemma OutArrives(s: Stage, ev: Event, live: bool)
    requires ValidStage(s) && (IsPressure(ev) ==> live)
    ensures Arrives(Step(s, ev).1, Passes(s, live))
    ensures Passes(Step(s, ev).0, live) ==> Passes(s, live)
  {
  }

  // Less pressure does no harm.
  lemma {:induction false} CleanWithLess(c: seq<Stage>, live: bool, less: bool)
    requires Clean(c, live) && (less ==> live)
    ensures Clean(c, less)
    decreases |c|
  {
    if c != [] {
      CleanWithLess(c[1..], Passes(c[0], live), Passes(c[0], less));
    }
  }

  // A clean chain stays clean: barriers come to hold pressure only if it can arrive.
  lemma {:induction false} PushKeepsClean(c: seq<Stage>, ev: Event, live: bool)
    requires Valid(c) && Clean(c, live) && (IsPressure(ev) ==> live)
    ensures Clean(Push(c, ev).chain, live)
    decreases |c|, 0
  {
    hide Step, Passes, Lent, Fresh;
    if c != [] {
      var rest, c' := c[1..], Push(c, ev).chain;
      var on := Passes(c[0], live);
      PushKeeps(rest, ev);
      OutArrives(c[0], ev, live);
      PushKeeps(c, ev);
      SameTails(c', c);
      SameHits(c'[1..], rest);
      if c[0].PressureToKey? {
        var down := Push(rest, ev);
        var generated := PK.After(c[0].pressure, down.ev).1;
        PressurePasses(c[0], c'[0], ev, live);
        PushKeepsClean(rest, ev, on);
        PushAllKeepsClean(down.chain, generated, down.ev, on);
        CleanWithLess(c'[1..], on, Passes(c'[0], live));
      } else {
        PushAllKeepsClean(rest, Step(c[0], ev).1, Lent(c[0], ev), on);
        CleanWithLess(c'[1..], on, Passes(c'[0], live));
      }
      SameKind(c'[0], c[0]);
    }
  }

  lemma SameTails(a: seq<Stage>, b: seq<Stage>)
    requires SameFilters(a, b) && a != []
    ensures Fresh(a[0]) == Fresh(b[0]) && SameFilters(a[1..], b[1..])
  {
    hide Fresh;
    forall i | 0 <= i < |a| - 1 ensures Fresh(a[1..][i]) == Fresh(b[1..][i]) {
      assert a[1..][i] == a[i + 1] && b[1..][i] == b[i + 1];
    }
  }

  lemma SameKind(s: Stage, t: Stage)
    requires Fresh(s) == Fresh(t)
    ensures s.PressureToKey? == t.PressureToKey? && s.Barrier? == t.Barrier? && s.Commit? == t.Commit?
    ensures Stops(s) == Stops(t) && Diverts(s) == Diverts(t) && Loses(s) == Loses(t)
  {
  }

  lemma PressurePasses(s: Stage, s': Stage, ev: Event, live: bool)
    requires s.PressureToKey? && s'.PressureToKey?
    ensures Passes(s, live) == Passes(s', live) == live
  {
  }

  lemma {:induction false} PushAllKeepsClean(c: seq<Stage>, es: seq<Event>, ev: Event, live: bool)
    requires Valid(c) && Clean(c, live) && Arrives(es, live)
    ensures Clean(PushAll(c, es, ev).chain, live)
    decreases |c|, |es| + 1
  {
    hide Push, Clean;
    if es != [] {
      PushAllKeepsClean(c, es[..|es| - 1], ev, live);
      PushAllKeeps(c, es[..|es| - 1], ev);
      PushKeepsClean(PushAll(c, es[..|es| - 1], ev).chain, es[|es| - 1], live);
    }
  }

  // In a clean chain one push does what stage-by-stage composition does.
  lemma {:induction false} PushIsComposition(c: seq<Stage>, ev: Event, live: bool)
    requires Valid(c) && Clean(c, live) && (IsPressure(ev) ==> live)
    ensures var r := Push(c, ev);
            (r.chain, r.out) == RunChain(c, [ev])
    decreases |c|, 0
  {
    hide Step, Run, Hits, Lent, Passes;
    if c != [] {
      var rest := c[1..];
      var on := Passes(c[0], live);
      RunOne(Step, c[0], ev);
      if c[0].PressureToKey? {
        ComesBack(rest, ev);
        PressurePasses(c[0], c[0], ev, live);
        PushIsComposition(rest, ev, on);
        var down := Push(rest, ev);
        var (t, generated) := PK.After(c[0].pressure, down.ev);
        assert (t, generated) == PK.After(c[0].pressure, ev);
        PushKeeps(rest, ev);
        PushKeepsClean(rest, ev, on);
        PushAllIsComposition(down.chain, generated, down.ev, on);
        RunChainAppend(rest, [ev], generated);
        PressureStep(c[0], ev);
      } else {
        OutArrives(c[0], ev, live);
        PushAllIsComposition(rest, Step(c[0], ev).1, Lent(c[0], ev), on);
      }
    }
  }

  lemma PressureStep(s: Stage, ev: Event)
    requires s.PressureToKey?
    ensures var (t, generated) := PK.After(s.pressure, ev);
            Step(s, ev) == (PressureToKey(t), [ev] + generated)
  {
  }

  lemma {:induction false} PushAllIsComposition(c: seq<Stage>, es: seq<Event>, ev: Event, live: bool)
    requires Valid(c) && Clean(c, live) && Arrives(es, live)
    ensures var r := PushAll(c, es, ev);
            (r.chain, r.out) == RunChain(c, es)
    decreases |c|, |es| + 1
  {
    hide Push, RunChain, Clean;
    if es == [] {
      RunChainNothing(c);
    } else {
      var init, e := es[..|es| - 1], es[|es| - 1];
      PushAllIsComposition(c, init, ev, live);
      var before := PushAll(c, init, ev).chain;
      PushAllKeeps(c, init, ev);
      PushAllKeepsClean(c, init, ev, live);
      PushIsComposition(before, e, live);
      RunChainAppend(c, init, [e]);
      assert es == init + [e];
    }
  }

  // For a clean chain of any length and any run, pushing the events one at a time leaves
  // every filter as composing the filters' stream functions does, and gives the same
  // stream.
  lemma RunIsComposition(c: seq<Stage>, es: seq<Event>)
    requires Valid(c) && Clean(c, true)
    ensures PushEach(c, es) == RunChain(c, es)
  {
    PushAllIsComposition(c, es, NOTHING, true);
  }

  // With a commit filter last, that stream is what it records.
  lemma DeliveredStream(c: seq<Stage>, es: seq<Event>)
    requires Valid(c) && Clean(c + [Commit([])], true)
    ensures var end := PushEach(c + [Commit([])], es).0;
            end[|c|] == Commit(RunChain(c, es).1)
  {
    CommitRecords(c, [], es);
    RunIsComposition(c + [Commit([])], es);
    assert [] + RunChain(c, es).1 == RunChain(c, es).1;
    RunChainNothing(c);
    assert |RunChain(c, es).0| == |c|;
  }

  // ---- A PressureToKey before any filters ----

  // What each event of a run has become when the first filter reads it again.
  function Backs(c: seq<Stage>, es: seq<Event>): seq<Event>
    requires c != []
    decreases |es|
  {
    if es == [] then []
    else
      var before := PushEach(c, es[..|es| - 1]).0;
      Backs(c, es[..|es| - 1]) + [Push(before[1..], es[|es| - 1]).ev]
  }

  // Its key state is the threshold test of the last pressure that came back to it.
  lemma {:induction false} PenHears(treshold: int, key: int, rest: seq<Stage>, es: seq<Event>)
    ensures var c := [PressureToKey(PK.Init(treshold, key))] + rest;
            PushEach(c, es).0[0] == PressureToKey(PK.State(treshold, key, PK.Down(treshold, Backs(c, es))))
    decreases |es|
  {
    hide Push, PushAll, PushEach, PK.Over;
    var c := [PressureToKey(PK.Init(treshold, key))] + rest;
    if es == [] {
      PushEachNothing(c);
    } else {
      var init, e := es[..|es| - 1], es[|es| - 1];
      PenHears(treshold, key, rest, init);
      var before := PushEach(c, init).0;
      assert es == init + [e];
      PushEachAppend(c, init, [e]);
      PushEachOne(before, e);
      PenAfter(before, e);
    }
  }

  lemma PenHearsLast(treshold: int, key: int, rest: seq<Stage>, es: seq<Event>, n: nat)
    requires PK.LastPressure(Backs([PressureToKey(PK.Init(treshold, key))] + rest, es), n)
    ensures var c := [PressureToKey(PK.Init(treshold, key))] + rest;
            var pen, value := PushEach(c, es).0[0], Backs(c, es)[n].value;
            && pen.PressureToKey?
            && (pen.pressure.pressed
                <==> if treshold >= 0 then value > treshold else value != 0 && value < -treshold)
  {
    hide PushEach, Backs;
    PenHears(treshold, key, rest, es);
    PK.DownMeans(treshold, Backs([PressureToKey(PK.Init(treshold, key))] + rest, es));
  }

  lemma PenAfter(c: seq<Stage>, e: Event)
    requires c != [] && c[0].PressureToKey?
    ensures Push(c, e).chain[0] == PressureToKey(PK.After(c[0].pressure, Push(c[1..], e).ev).0)
  {
  }
}
