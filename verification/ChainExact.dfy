// The condition of Chain.RunIsComposition cannot be weakened: a chain that is not clean,
// as it is allocated, parts from its composition on some run. Pressure below all
// thresholds settles every filter; one event above them is then missed by a
// PressureToKey, because the event it reads back has been rewritten after it.
module ChainExact {
  import opened CArith
  import opened Events
  import opened Stages
  import opened Chain
  import opened Fronts
  import PK = PressureToKey
  import FH = FilterToHandle
  import BR = Barrier

  const LOW := Event(EV_ABS, ABS_PRESSURE, -1)
  const REPORT := Event(EV_SYN, SYN_REPORT, 0)

  // Filters behind a handle that rewrite every pressure event.
  const LOSE: (nat, Event) -> Event := (n: nat, e: Event) => if IsPressure(e) then Event(EV_KEY, 0, 0) else e

  function Packets(x: Event, m: nat): seq<Event> {
    if m == 0 then [] else Packets(x, m - 1) + [x, REPORT]
  }

  // An event no filter but PressureToKey and FilterToHandle looks at.
  predicate Head(x: Event) {
    x.kind !in {EV_SYN, EV_KEY, EV_REL}
  }

  // x gets through s sooner or later.
  predicate Conducts(s: Stage, x: Event) {
    (s.Barrier? ==> s.barrier.size > 0) && (s.FilterToHandle? ==> !s.handle.Redirects(x))
  }

  // s lets packets of x through as they are.
  predicate Settled(s: Stage, x: Event) {
    match s
    case SpeedMod(t) => !t.eatNextSyn
    case Rel2Scroll(t) => !t.eatNextSync
    case Barrier(t) => t.queue == []
    case KeyLock(t) => !t.eatNextSync
    case PressureToKey(t) => IsPressure(x) ==> t.pressed == PK.Over(x.value, t.treshold)
    case FilterToHandle(t) => t.Redirects(REPORT) ==> t.syncFlag
    case _ => true
  }

  lemma TwoSteps(s: Stage, x: Event, y: Event)
    ensures var (s1, out1) := Step(s, x);
            var (s2, out2) := Step(s1, y);
            Run(Step, s, [x, y]) == (s2, out1 + out2)
  {
    hide Step;
    assert [x, y] == [x] + [y];
    RunAppend(Step, s, [x], [y]);
    RunOne(Step, s, x);
    RunOne(Step, Step(s, x).0, y);
  }

  // One packet settles any filter that lets it through.
  lemma PacketSettles(s: Stage, x: Event)
    requires Head(x) && Conducts(s, x)
    ensures var s' := Run(Step, s, [x, REPORT]).0;
            Settled(s', x) && Conducts(s', x)
  {
    TwoSteps(s, x, REPORT);
  }

  lemma PacketPasses(s: Stage, x: Event)
    requires Head(x) && Conducts(s, x) && Settled(s, x)
    ensures Run(Step, s, [x, REPORT]).1 == [x, REPORT]
  {
    TwoSteps(s, x, REPORT);
  }

  // Of a row of packets all but the first get through, whatever came before.
  lemma {:induction false} RowPasses(s: Stage, junk: seq<Event>, x: Event, m: nat)
    requires Head(x) && Conducts(s, x) && m >= 1
    ensures var (s', out) := Run(Step, s, junk + Packets(x, m));
            && out == Run(Step, s, junk + [x, REPORT]).1 + Packets(x, m - 1)
            && Settled(s', x) && Conducts(s', x)
    decreases m
  {
    hide Step, Settled;
    var one := [x, REPORT];
    if m == 1 {
      assert Packets(x, 1) == one by { assert [] + one == one; }
      var first := Run(Step, s, junk + one).1;
      assert first + Packets(x, 0) == first;
      RunAppend(Step, s, junk, one);
      ConductsOn(s, junk, x);
      PacketSettles(Run(Step, s, junk).0, x);
    } else {
      RowPasses(s, junk, x, m - 1);
      var row := junk + Packets(x, m - 1);
      assert junk + Packets(x, m) == row + one;
      RunAppend(Step, s, row, one);
      var first := Run(Step, s, junk + one).1;
      var s1 := Run(Step, s, row).0;
      PacketPasses(s1, x);
      PacketSettles(s1, x);
      assert (first + Packets(x, m - 2)) + one == first + (Packets(x, m - 2) + one);
    }
  }

  lemma {:induction false} ConductsOn(s: Stage, es: seq<Event>, x: Event)
    requires Conducts(s, x)
    ensures Conducts(Run(Step, s, es).0, x)
    decreases |es|
  {
    if es != [] { ConductsOn(s, es[..|es| - 1], x); }
  }

  // ---- Settling a chain ----

  ghost predicate AllNew(c: seq<Stage>) {
    forall i :: 0 <= i < |c| ==> IsNew(c[i])
  }

  // Handles that may rewrite do.
  ghost predicate Lossy(s: Stage) {
    s.FilterToHandle? && s.handle.receiver.rewrites ==> s.handle.receiver.reply == LOSE
  }

  ghost predicate AllLossy(c: seq<Stage>) {
    forall i :: 0 <= i < |c| ==> Lossy(c[i])
  }

  lemma {:induction false} LossyOn(s: Stage, es: seq<Event>)
    requires Lossy(s)
    ensures Lossy(Run(Step, s, es).0)
    decreases |es|
  {
    if es != [] { LossyOn(s, es[..|es| - 1]); }
  }

  // As far as LOW can get, every filter is settled.
  ghost predicate SettledTo(c: seq<Stage>)
    decreases |c|
  {
    c == [] || (Lossy(c[0]) && (Conducts(c[0], LOW) ==> Settled(c[0], LOW) && SettledTo(c[1..])))
  }

  lemma {:induction false} Prepare(c: seq<Stage>, junk: seq<Event>, m: nat)
    requires AllLossy(c) && m >= |c|
    ensures SettledTo(RunChain(c, junk + Packets(LOW, m)).0)
    decreases |c|
  {
    hide Step, Settled, Lossy, Conducts, Run;
    if c != [] {
      var stream := junk + Packets(LOW, m);
      var (s, mid) := Run(Step, c[0], stream);
      LossyOn(c[0], stream);
      var rest := RunChain(c[1..], mid).0;
      assert RunChain(c, stream).0[1..] == rest;
      if Conducts(c[0], LOW) {
        RowPasses(c[0], junk, LOW, m);
        Prepare(c[1..], Run(Step, c[0], junk + [LOW, REPORT]).1, m - 1);
      } else {
        StaysShut(c[0], stream);
      }
    }
  }

  lemma {:induction false} StaysShut(s: Stage, es: seq<Event>)
    requires !Conducts(s, LOW)
    ensures !Conducts(Run(Step, s, es).0, LOW)
    decreases |es|
  {
    if es != [] { StaysShut(s, es[..|es| - 1]); }
  }

  // ---- One event above all thresholds ----

  predicate NoPressure(es: seq<Event>) {
    forall i :: 0 <= i < |es| ==> !IsPressure(es[i])
  }

  // high is a pressure event above the threshold of s.
  predicate Above(s: Stage, high: Event) {
    IsPressure(high) && high.value > 0 && (s.PressureToKey? ==> high.value > Abs(s.pressure.treshold))
  }

  // x is an event of no interest to s.
  predicate Strange(s: Stage, x: Event) {
    Head(x) && !IsPressure(x) && (s.FilterToHandle? ==> !s.handle.Redirects(x))
  }

  // A settled filter that high gets through.
  predicate Carries(s: Stage, high: Event, x: Event) {
    Conducts(s, LOW) && Settled(s, LOW) && Above(s, high) && Strange(s, x) && ValidStage(s)
  }

  lemma CrossesHigh(s: Stage, high: Event)
    requires s.PressureToKey? && Settled(s, LOW) && Above(s, high)
    ensures PK.After(s.pressure, high).1 != [] && IsPressure(high)
    ensures PK.Over(high.value, s.pressure.treshold) != PK.Over(LOW.value, s.pressure.treshold)
  {
  }

  // What leaves the filter starts with high, and has no other pressure in it.
  lemma HighFirst(s: Stage, high: Event, x: Event, junk: seq<Event>) returns (more: seq<Event>)
    requires Carries(s, high, x) && NoPressure(junk)
    ensures Run(Step, s, [high] + junk + [x, REPORT]).1 == [high] + more && NoPressure(more)
  {
    hide Carries, Step;
    var es := junk + [x, REPORT];
    StrangePlain(s, high, x);
    assert [high] + junk + [x, REPORT] == [high] + es;
    RunAppend(Step, s, [high], es);
    RunOne(Step, s, high);
    var s1 := Step(s, high).0;
    if s.Barrier? {
      BarrierTakes(s, high, x);
      assert [high] + [] == [high];
      more := BarrierHolds(s1.barrier, high, [], es);
      BarrierRun(s1.barrier, es);
    } else {
      var keys := HighThrough(s, high, x);
      PlainOut(s1, es);
      var rest := Run(Step, s1, es).1;
      more := keys + rest;
      assert ([high] + keys) + rest == [high] + more;
    }
  }

  lemma StrangePlain(s: Stage, high: Event, x: Event)
    requires Carries(s, high, x)
    ensures IsPressure(high) && !IsPressure(x)
  {
  }

  lemma HighThrough(s: Stage, high: Event, x: Event) returns (keys: seq<Event>)
    requires Carries(s, high, x) && !s.Barrier?
    ensures Step(s, high).1 == [high] + keys && NoPressure(keys)
    ensures var s' := Step(s, high).0;
            !s'.Barrier? && ValidStage(s')
  {
    keys := Step(s, high).1[1..];
  }

  lemma BarrierTakes(s: Stage, high: Event, x: Event)
    requires Carries(s, high, x) && s.Barrier?
    ensures Step(s, high) == (Barrier(BR.State(s.barrier.size, [high])), [])
  {
    assert [] + [high] == [high];
  }

  lemma {:induction false} PlainOut(s: Stage, es: seq<Event>)
    requires !s.Barrier? && NoPressure(es)
    ensures NoPressure(Run(Step, s, es).1) && !Run(Step, s, es).0.Barrier?
    decreases |es|
  {
    hide Step;
    if es != [] {
      var init, e := es[..|es| - 1], es[|es| - 1];
      PlainOut(s, init);
      PlainStep(Run(Step, s, init).0, e);
    }
  }

  lemma PlainStep(s: Stage, e: Event)
    requires !s.Barrier? && !IsPressure(e)
    ensures NoPressure(Step(s, e).1) && !Step(s, e).0.Barrier?
  {
  }

  // A barrier that holds high and no other pressure lets them go with the first report.
  lemma {:induction false} BarrierHolds(b: BR.State, high: Event, held: seq<Event>, es: seq<Event>)
    returns (more: seq<Event>)
    requires b.queue == [high] + held && NoPressure(held) && NoPressure(es) && IsPressure(high)
    ensures var (b', out) := Run(BR.Step, b, es);
            if out == [] then b'.queue == [high] + more && NoPressure(more) && (es != [] ==> !IsReport(es[|es| - 1]))
            else out == [high] + more && NoPressure(more) && NoPressure(b'.queue)
    decreases |es|
  {
    if es == [] {
      more := held;
    } else {
      var init, e := es[..|es| - 1], es[|es| - 1];
      var so := BarrierHolds(b, high, held, init);
      var (b1, out1) := Run(BR.Step, b, init);
      var (b2, out2) := BR.Step(b1, e);
      if out1 == [] {
        more := if IsReport(e) || |b1.queue| < b1.size then so + [e] else so;
        assert [] + ([high] + so + [e]) == [high] + (so + [e]);
      } else {
        more := so + out2;
        assert ([high] + so) + out2 == [high] + (so + out2);
      }
    }
  }

  lemma {:induction false} BarrierRun(b: BR.State, es: seq<Event>)
    ensures var (b', out) := Run(BR.Step, b, es);
            Run(Step, Barrier(b), es) == (Barrier(b'), out)
    decreases |es|
  {
    hide BR.Step;
    if es != [] { BarrierRun(b, es[..|es| - 1]); }
  }

  // The same with a row of packets behind it.
  lemma HighOn(s: Stage, high: Event, x: Event, junk: seq<Event>, m: nat) returns (more: seq<Event>)
    requires Carries(s, high, x) && NoPressure(junk) && m >= 1
    ensures Run(Step, s, [high] + junk + Packets(x, m)).1 == [high] + more + Packets(x, m - 1) && NoPressure(more)
  {
    more := HighFirst(s, high, x, junk);
    RowPasses(s, [high] + junk, x, m);
  }

  ghost predicate AllCarry(c: seq<Stage>, high: Event, x: Event) {
    forall i :: 0 <= i < |c| ==> Carries(c[i], high, x)
  }

  lemma {:induction false} HighOnAll(c: seq<Stage>, high: Event, x: Event, junk: seq<Event>, m: nat)
    returns (more: seq<Event>)
    requires AllCarry(c, high, x) && NoPressure(junk) && m >= |c|
    ensures RunChain(c, [high] + junk + Packets(x, m)).1 == [high] + more + Packets(x, m - |c|) && NoPressure(more)
    decreases |c|
  {
    hide Step, Carries, NoPressure, Run;
    if c == [] {
      more := junk;
    } else {
      var mid := HighOn(c[0], high, x, junk, m);
      more := HighOnAll(c[1..], high, x, mid, m - 1);
    }
  }

  // ---- Composition: the filter sees high ----

  lemma {:induction false} PenSees(t: PK.State, high: Event, junk: seq<Event>)
    requires NoPressure(junk) && IsPressure(high)
    ensures var s := Run(Step, PressureToKey(t), [high] + junk).0;
            && s.PressureToKey? && s.pressure.treshold == t.treshold
            && s.pressure.pressed == PK.Over(high.value, t.treshold)
    decreases |junk|
  {
    hide PK.Over;
    if junk == [] {
      assert [high] + junk == [high];
      RunOne(Step, PressureToKey(t), high);
    } else {
      var n := |junk| - 1;
      PenSees(t, high, junk[..n]);
      assert ([high] + junk)[..n + 1] == [high] + junk[..n];
    }
  }

  lemma {:induction false} ComposedPen(c: seq<Stage>, n: nat, high: Event, x: Event, junk: seq<Event>, m: nat)
    requires n < |c| && c[n].PressureToKey? && AllCarry(c[..n], high, x) && m >= n
    requires NoPressure(junk) && IsPressure(high) && Strange(c[n], x)
    ensures var s := RunChain(c, [high] + junk + Packets(x, m)).0[n];
            s.PressureToKey? && s.pressure.pressed == PK.Over(high.value, c[n].pressure.treshold)
    decreases n
  {
    hide Step, Carries, NoPressure, Run, PK.Over;
    if n == 0 {
      var rest := junk + Packets(x, m);
      PlainRow(x, m);
      PlainBoth(junk, Packets(x, m));
      assert [high] + junk + Packets(x, m) == [high] + rest;
      PenSees(c[0].pressure, high, rest);
    } else {
      assert c[..n][0] == c[0] && c[..n][1..] == c[1..][..n - 1];
      var mid := HighOn(c[0], high, x, junk, m);
      ComposedPen(c[1..], n - 1, high, x, mid, m - 1);
    }
  }

  lemma PlainBoth(a: seq<Event>, b: seq<Event>)
    requires NoPressure(a) && NoPressure(b)
    ensures NoPressure(a + b)
  {
  }

  lemma {:induction false} PlainRow(x: Event, m: nat)
    requires !IsPressure(x)
    ensures NoPressure(Packets(x, m))
    decreases m
  {
    if m > 0 { PlainRow(x, m - 1); }
  }

  // ---- Pushing: the filter misses it ----

  // high, pushed into settled filters that lead it to one that rewrites it, is lost.
  lemma {:induction false} HighLost(c: seq<Stage>, high: Event)
    requires Hits(c) && Valid(c) && SettledTo(c) && forall i :: 0 <= i < |c| ==> Above(c[i], high)
    ensures !IsPressure(Push(c, high).ev)
    decreases |c|
  {
    hide Step, Settled, Lossy, Above;
    var rest := c[1..];
    if c[0].PressureToKey? {
      CrossesHigh(c[0], high);
      ComesBack(rest, high);
      PushKeeps(rest, high);
      var down := Push(rest, high);
      AllComeBack(down.chain, PK.After(c[0].pressure, down.ev).1, down.ev);
    } else if Diverts(c[0]) {
      LostBehind(c[0], high);
    } else {
      OnlyHigh(c[0], high);
      HighLost(rest, high);
      PushOne(rest, high, Lent(c[0], high));
    }
  }

  lemma LostBehind(s: Stage, high: Event)
    requires Diverts(s) && Loses(s) && Lossy(s) && Above(s, high)
    ensures Step(s, high).1 == [] && !IsPressure(Lent(s, high))
  {
  }

  lemma OnlyHigh(s: Stage, high: Event)
    requires !s.PressureToKey? && !Stops(s) && Above(s, high) && Settled(s, LOW)
    ensures Step(s, high).1 == [high]
  {
  }

  // What is pushed into c reaches the PressureToKey at n within the same call.
  predicate Leads(c: seq<Stage>, n: nat) {
    n < |c| && c[n].PressureToKey? && forall i :: 0 <= i < n ==> !c[i].PressureToKey? && !c[i].Barrier?
  }

  lemma {:induction false} HighMissed(c: seq<Stage>, n: nat, high: Event, x: Event)
    requires Leads(c, n) && AllCarry(c[..n], high, x) && Valid(c) && IsPressure(high)
    requires Hits(c[n + 1..]) && SettledTo(c[n + 1..]) && forall i :: 0 <= i < |c| ==> Above(c[i], high)
    ensures Push(c, high).chain[n] == c[n]
    decreases n
  {
    hide Step, Settled, Lossy, Above, Hits, SettledTo, Carries;
    var rest := c[1..];
    if n == 0 {
      HighLost(rest, high);
    } else {
      assert c[..n][0] == c[0] && c[..n][1..] == rest[..n - 1];
      assert rest[n - 1 + 1..] == c[n + 1..];
      CarriesOnly(c[0], high, x);
      HighMissed(rest, n - 1, high, x);
      PushOne(rest, high, Lent(c[0], high));
    }
  }

  lemma CarriesOnly(s: Stage, high: Event, x: Event)
    requires Carries(s, high, x) && !s.PressureToKey? && !s.Barrier?
    ensures Step(s, high).1 == [high]
  {
  }

  // Nothing but pressure moves it.
  lemma {:induction false} PlainKeepsPen(c: seq<Stage>, n: nat, e: Event)
    requires Leads(c, n) && Valid(c) && !IsPressure(e)
    ensures Push(c, e).chain[n] == c[n]
    decreases n, 0
  {
    hide Step;
    var rest := c[1..];
    if n == 0 {
      ComesBack(rest, e);
    } else {
      PlainStep(c[0], e);
      PlainKeepPen(rest, n - 1, Step(c[0], e).1, Lent(c[0], e));
    }
  }

  lemma {:induction false} PlainKeepPen(c: seq<Stage>, n: nat, es: seq<Event>, ev: Event)
    requires Leads(c, n) && Valid(c) && NoPressure(es)
    ensures PushAll(c, es, ev).chain[n] == c[n]
    decreases n, |es| + 1
  {
    hide Push;
    if es != [] {
      var init := es[..|es| - 1];
      PlainKeepPen(c, n, init, ev);
      PushAllKeeps(c, init, ev);
      StillLeads(c, PushAll(c, init, ev).chain, n);
      PlainKeepsPen(PushAll(c, init, ev).chain, n, es[|es| - 1]);
    }
  }

  lemma StillLeads(c: seq<Stage>, c': seq<Stage>, n: nat)
    requires Leads(c, n) && SameFilters(c', c)
    ensures Leads(c', n)
  {
    hide Fresh;
    forall i | 0 <= i <= n ensures c'[i].PressureToKey? == c[i].PressureToKey? && c'[i].Barrier? == c[i].Barrier? {
      assert Fresh(c'[i]) == Fresh(c[i]);
      SameKind(c'[i], c[i]);
    }
  }

  lemma PenMisses(c: seq<Stage>, n: nat, high: Event, x: Event, junk: seq<Event>)
    requires Leads(c, n) && AllCarry(c[..n], high, x) && Valid(c) && IsPressure(high) && NoPressure(junk)
    requires Hits(c[n + 1..]) && SettledTo(c[n + 1..]) && forall i :: 0 <= i < |c| ==> Above(c[i], high)
    ensures PushEach(c, [high] + junk).0[n] == c[n]
  {
    hide Push, PushAll, Carries, Hits, SettledTo, Above;
    HighMissed(c, n, high, x);
    PushEachOne(c, high);
    PushEachAppend(c, [high], junk);
    PushKeeps(c, high);
    var c1 := Push(c, high).chain;
    StillLeads(c, c1, n);
    PlainKeepPen(c1, n, junk, NOTHING);
  }

  // ---- Where a chain is not clean ----

  // The PressureToKey at n loses what it hands on. Pressure gets there, and from b on
  // within one call; before b there is nothing, or a barrier behind a clean front.
  predicate BadAt(c: seq<Stage>, b: nat, n: nat) {
    && b <= n < |c| && c[n].PressureToKey? && Hits(c[n + 1..])
    && (forall i :: 0 <= i < n ==> Conducts(c[i], LOW))
    && (forall i :: b <= i < n ==> !c[i].PressureToKey? && !c[i].Barrier?)
    && (b > 0 ==> c[b - 1].Barrier? && Clean(c[..b - 1], true))
  }

  lemma {:induction false} FindBad(c: seq<Stage>) returns (b: nat, n: nat)
    requires AllNew(c) && !Clean(c, true)
    ensures BadAt(c, b, n)
    decreases |c|
  {
    hide Conducts, Fresh;
    var rest := c[1..];
    if c[0].PressureToKey? && Hits(rest) {
      b, n := 0, 0;
    } else {
      if !Passes(c[0], true) { DryIsClean(rest); }
      NewPasses(c[0]);
      var b', n' := FindBad(rest);
      assert c[n' + 2..] == rest[n' + 1..];
      n := n' + 1;
      if b' > 0 {
        b := b' + 1;
        var front := c[..b - 1];
        assert front[0] == c[0] && front[1..] == rest[..b' - 1];
        if Hits(front[1..]) { HitsMore(rest, b' - 1); }
      } else {
        b := if c[0].Barrier? then 1 else 0;
        HitsThrough(rest, n');
      }
    }
  }

  lemma NewPasses(s: Stage)
    requires IsNew(s)
    ensures Passes(s, true) ==> Conducts(s, LOW)
    ensures !Passes(s, false)
  {
  }

  lemma {:induction false} DryIsClean(c: seq<Stage>)
    requires AllNew(c)
    ensures Clean(c, false)
    decreases |c|
  {
    hide IsNew, Passes;
    if c != [] {
      NewPasses(c[0]);
      DryIsClean(c[1..]);
    }
  }

  lemma {:induction false} HitsMore(c: seq<Stage>, n: nat)
    requires n <= |c| && Hits(c[..n])
    ensures Hits(c)
    decreases n
  {
    if !Loses(c[0]) {
      assert c[..n][1..] == c[1..][..n - 1];
      HitsMore(c[1..], n - 1);
    }
  }

  lemma {:induction false} HitsThrough(c: seq<Stage>, n: nat)
    requires BadAt(c, 0, n)
    ensures Hits(c)
    decreases n
  {
    if n > 0 {
      assert c[1..][n..] == c[n + 1..];
      HitsThrough(c[1..], n - 1);
    }
  }

  // ---- The run that shows it ----

  function Top(c: seq<Stage>): (v: int)
    ensures v > 0
  {
    if c == [] then 1 else Top(c[1..]) + if c[0].PressureToKey? then Abs(c[0].pressure.treshold) else 0
  }

  function Far(c: seq<Stage>): (code: int)
    ensures code > ABS_PRESSURE
  {
    if c == [] then ABS_PRESSURE + 1 else Far(c[1..]) + if c[0].FilterToHandle? then Abs(c[0].handle.code) else 0
  }

  lemma {:induction false} TopAndFar(c: seq<Stage>, v: int, code: int)
    requires v >= Top(c) && code >= Far(c)
    ensures forall i :: 0 <= i < |c| ==>
              Above(c[i], Event(EV_ABS, ABS_PRESSURE, v)) && Strange(c[i], Event(EV_ABS, code, 0))
    decreases |c|
  {
    if c != [] {
      TopAndFar(c[1..], v, code);
      assert forall i :: 0 < i < |c| ==> c[i] == c[1..][i - 1];
    }
  }

  lemma SameReach(s: Stage, t: Stage, high: Event, x: Event)
    requires Fresh(s) == Fresh(t)
    ensures Above(s, high) == Above(t, high) && Strange(s, x) == Strange(t, x) && Conducts(s, LOW) == Conducts(t, LOW)
  {
  }

  // What is so of the chain as allocated is so of it after any run.
  lemma StillBad(c: seq<Stage>, d: seq<Stage>, b: nat, n: nat, high: Event, x: Event)
    requires BadAt(c, b, n) && SameFilters(d, c) && (b > 0 ==> Clean(d[..b - 1], true))
    requires forall i :: 0 <= i < |c| ==> Above(c[i], high) && Strange(c[i], x)
    ensures BadAt(d, b, n)
    ensures forall i :: 0 <= i < |d| ==> Above(d[i], high) && Strange(d[i], x)
  {
    hide Fresh, Above, Strange, Conducts, Hits;
    forall i | 0 <= i < |d|
      ensures Above(d[i], high) && Strange(d[i], x) && Conducts(d[i], LOW) == Conducts(c[i], LOW)
      ensures d[i].PressureToKey? == c[i].PressureToKey? && d[i].Barrier? == c[i].Barrier?
    {
      assert Fresh(d[i]) == Fresh(c[i]);
      SameReach(d[i], c[i], high, x);
      SameKind(d[i], c[i]);
    }
    var k := n + 1;
    forall i | 0 <= i < |d| - k ensures Fresh(d[k..][i]) == Fresh(c[k..][i]) {
      assert d[k..][i] == d[k + i] && c[k..][i] == c[k + i];
    }
    SameHits(d[k..], c[k..]);
  }

  lemma {:induction false} SettledThrough(c: seq<Stage>, n: nat)
    requires SettledTo(c) && n < |c| && forall i :: 0 <= i <= n ==> Conducts(c[i], LOW)
    ensures forall i :: 0 <= i <= n ==> Settled(c[i], LOW)
    ensures SettledTo(c[n + 1..])
    decreases n
  {
    hide Settled, Conducts;
    if n > 0 {
      SettledThrough(c[1..], n - 1);
      assert c[1..][n - 1 + 1..] == c[n + 1..];
      assert forall i :: 0 < i <= n ==> c[i] == c[1..][i - 1];
    }
  }

  lemma CarriesUpTo(d: seq<Stage>, b: nat, n: nat, high: Event, x: Event)
    requires BadAt(d, b, n) && Valid(d) && SettledTo(d)
    requires forall i :: 0 <= i < |d| ==> Above(d[i], high) && Strange(d[i], x)
    ensures AllCarry(d[..n], high, x) && Settled(d[n], LOW) && SettledTo(d[n + 1..])
  {
    assert Conducts(d[n], LOW);
    hide Settled, Conducts, Above, Strange, Hits;
    SettledThrough(d, n);
  }

  // What is pushed into the chain from b on: high first, and no other pressure.
  lemma FromBarrierOn(d: seq<Stage>, b: nat, n: nat, high: Event, x: Event) returns (rest: seq<Event>)
    requires BadAt(d, b, n) && Valid(d) && AllCarry(d[..n], high, x) && !IsPressure(x)
    ensures NoPressure(rest)
    ensures PushEach(d, [high] + Packets(x, |d|)).0[n] == PushEach(d[b..], [high] + rest).0[n - b]
  {
    hide Push, PushAll, PushEach, RunChain, Hits, Conducts, Clean, Carries, NoPressure, Step;
    var row := [high] + Packets(x, |d|);
    if b == 0 {
      PlainRow(x, |d|);
      rest := Packets(x, |d|);
      assert d[b..] == d;
    } else {
      var front, w, v := d[..b - 1], d[b - 1..], d[b..];
      assert d == front + w && w == [d[b - 1]] + v;
      RunFront(front, w, row);
      RunIsComposition(front, row);
      assert [high] + [] + Packets(x, |d|) == row;
      assert forall i :: 0 <= i < b ==> d[..n][i] == d[i];
      assert NoPressure([]) by { PlainRow(x, 0); }
      var mid := HighOnAll(front, high, x, [], |d|);
      var before := [high] + mid + Packets(x, |d| - |front|);
      var more := HighOn(d[b - 1], high, x, mid, |d| - |front|);
      BarrierRun(d[b - 1].barrier, before);
      BarrierFront(d[b - 1].barrier, v, before);
      rest := more + Packets(x, |d| - b);
      PlainRow(x, |d| - b);
      PlainBoth(more, Packets(x, |d| - b));
      assert [high] + more + Packets(x, |d| - b) == [high] + rest;
    }
  }

  // Pushed, high does not move the pen.
  lemma PushedPen(d: seq<Stage>, b: nat, n: nat, high: Event, x: Event)
    requires BadAt(d, b, n) && Valid(d) && AllCarry(d[..n], high, x) && SettledTo(d[n + 1..])
    requires forall i :: 0 <= i < |d| ==> Above(d[i], high) && Strange(d[i], x)
    ensures PushEach(d, [high] + Packets(x, |d|)).0[n] == d[n]
  {
    assert Above(d[n], high) && Strange(d[n], x) && IsPressure(high) && !IsPressure(x);
    hide PushEach, Hits, SettledTo, Settled, Above, Strange, Conducts, Clean, Carries;
    var v := d[b..];
    var rest := FromBarrierOn(d, b, n, high, x);
    assert v[n - b + 1..] == d[n + 1..] && v[..n - b] == d[..n][b..];
    PenMisses(v, n - b, high, x, rest);
  }

  // From settled filters high and a row of packets after it set the pen in the
  // composition, and leave it alone when they are pushed.
  lemma SettledDiffers(d: seq<Stage>, b: nat, n: nat, high: Event, x: Event)
    requires BadAt(d, b, n) && Valid(d) && SettledTo(d)
    requires forall i :: 0 <= i < |d| ==> Above(d[i], high) && Strange(d[i], x)
    ensures PushEach(d, [high] + Packets(x, |d|)).0[n] != RunChain(d, [high] + Packets(x, |d|)).0[n]
  {
    CrossesAt(d, b, n, high, x);
    hide Push, PushAll, PushEach, RunChain, BadAt, SettledTo, Settled, Above, Strange, PK.Over;
    CarriesUpTo(d, b, n, high, x);
    PushedPen(d, b, n, high, x);
    assert [high] + [] + Packets(x, |d|) == [high] + Packets(x, |d|);
    ComposedPen(d, n, high, x, [], |d|);
  }

  lemma CrossesAt(d: seq<Stage>, b: nat, n: nat, high: Event, x: Event)
    requires BadAt(d, b, n) && Valid(d) && SettledTo(d)
    requires forall i :: 0 <= i < |d| ==> Above(d[i], high) && Strange(d[i], x)
    ensures n < |d| && d[n].PressureToKey? && IsPressure(high)
    ensures d[n].pressure.pressed != PK.Over(high.value, d[n].pressure.treshold)
  {
    hide Conducts, SettledTo, Hits, Clean, Strange, PK.Over;
    CarriesUpTo(d, b, n, high, x);
    CrossesHigh(d[n], high);
  }

  // As allocated, and with handles that rewrite whatever they may.
  lemma NotCleanDiffers(c: seq<Stage>) returns (es: seq<Event>)
    requires AllNew(c) && AllLossy(c) && !Clean(c, true)
    ensures PushEach(c, es).0 != RunChain(c, es).0
  {
    hide Push, PushAll, RunChain, Clean, SettledTo, BadAt, Above, Strange;
    var b, n := FindBad(c);
    var start := Packets(LOW, |c|);
    es := start;
    var d := PushEach(c, start).0;
    if d == RunChain(c, start).0 {
      var high, x := Event(EV_ABS, ABS_PRESSURE, Top(c)), Event(EV_ABS, Far(c), 0);
      TopAndFar(c, Top(c), Far(c));
      NewIsValid(c);
      EachKeeps(c, start);
      assert [] + start == start;
      Prepare(c, [], |c|);
      FrontStaysClean(c, b, n, start);
      StillBad(c, d, b, n, high, x);
      SettledDiffers(d, b, n, high, x);
      es := start + ([high] + Packets(x, |d|));
      PushEachAppend(c, start, [high] + Packets(x, |d|));
      RunChainAppend(c, start, [high] + Packets(x, |d|));
    }
  }

  lemma NewIsValid(c: seq<Stage>)
    requires AllNew(c)
    ensures Valid(c)
  {
  }

  lemma FrontStaysClean(c: seq<Stage>, b: nat, n: nat, es: seq<Event>)
    requires BadAt(c, b, n) && Valid(c)
    ensures b > 0 ==> Clean(PushEach(c, es).0[..b - 1], true)
  {
    hide Push, Conducts, Hits, Clean;
    if b > 0 {
      var front, w := c[..b - 1], c[b - 1..];
      assert c == front + w;
      RunFront(front, w, es);
      PushAllKeepsClean(front, es, NOTHING, true);
      assert PushEach(c, es).0[..b - 1] == PushEach(front, es).0;
    }
  }

  // ---- The theorem ----

  // The same filters, just allocated; what is behind their handles may differ.
  ghost predicate Alike(d: seq<Stage>, c: seq<Stage>) {
    SameFilters(d, c) && AllNew(d)
  }

  function Lose(s: Stage): Stage {
    if s.FilterToHandle? && s.handle.receiver.rewrites
    then FilterToHandle(s.handle.(receiver := FH.Answers(true, LOSE)))
    else s
  }

  lemma LoseLaw(s: Stage)
    requires IsNew(s)
    ensures IsNew(Lose(s)) && Lossy(Lose(s)) && Fresh(Lose(s)) == Fresh(s)
  {
  }

  // For filters as they are allocated, pushing equals composing on every run, whatever
  // the filters behind handles that may rewrite events do, exactly when the chain is
  // clean: what to check before adding a PressureToKey.
  lemma CleanIffComposes(c: seq<Stage>)
    requires AllNew(c)
    ensures (forall d, es :: Alike(d, c) ==> PushEach(d, es) == RunChain(d, es)) <==> Clean(c, true)
  {
    hide PushEach, RunChain, Clean;
    if Clean(c, true) {
      forall d, es | Alike(d, c) ensures PushEach(d, es) == RunChain(d, es) {
        NewIsValid(d);
        SameClean(c, d, true);
        RunIsComposition(d, es);
      }
    } else {
      var d := seq(|c|, i requires 0 <= i < |c| => Lose(c[i]));
      forall i | 0 <= i < |c| ensures IsNew(d[i]) && Lossy(d[i]) && Fresh(d[i]) == Fresh(c[i]) {
        LoseLaw(c[i]);
      }
      if Clean(d, true) { SameClean(d, c, true); }
      var es := NotCleanDiffers(d);
      assert Alike(d, c);
    }
  }

  lemma {:induction false} SameClean(c: seq<Stage>, d: seq<Stage>, live: bool)
    requires AllNew(c) && AllNew(d) && SameFilters(c, d) && Clean(c, live)
    ensures Clean(d, live)
    decreases |c|
  {
    hide Fresh, IsNew, Passes;
    if c != [] {
      SameTails(c, d);
      SameKind(c[0], d[0]);
      SamePasses(c[0], d[0], live);
      SameClean(c[1..], d[1..], Passes(c[0], live));
      SameHits(c[1..], d[1..]);
    }
  }

  lemma SamePasses(s: Stage, t: Stage, live: bool)
    requires IsNew(s) && IsNew(t) && Fresh(s) == Fresh(t)
    ensures Passes(s, live) == Passes(t, live)
  {
  }

  // Two adjacent PressureToKeys, whatever their thresholds and keys.
  lemma AdjacentPressureDiffers(a: PK.State, b: PK.State)
    requires a == PK.Init(a.treshold, a.key) && b == PK.Init(b.treshold, b.key)
    ensures exists es :: PushEach([PressureToKey(a), PressureToKey(b)], es).0
                      != RunChain([PressureToKey(a), PressureToKey(b)], es).0
  {
    var c := [PressureToKey(a), PressureToKey(b)];
    assert c[1..][0] == PressureToKey(b);
    var es := NotCleanDiffers(c);
  }
}
