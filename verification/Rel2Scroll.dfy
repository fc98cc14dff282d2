// src/filters/rel2scroll.c: while a trigger button is held, pointer motion becomes
// wheel steps, one step per divisor's worth of motion.
module Rel2Scroll {
  import opened CArith
  import opened Events
  import SM = SpeedMod

  datatype State = State(x: int, xmod: Divisor, y: int, ymod: Divisor,
                         trigger: int, triggerOn: bool, eatNextSync: bool)
  {
    function Rem(code: int): int {
      if code == REL_X then x else y
    }

    function Mod(code: int): Divisor {
      if code == REL_X then xmod else ymod
    }

    predicate Valid() {
      Abs(x) < Abs(xmod) && Abs(y) < Abs(ymod)
    }
  }

  function Init(trigger: int, xmod: Divisor, ymod: Divisor): State {
    State(0, xmod, 0, ymod, trigger, false, false)
  }

  // The wheel an axis of motion is turned into.
  function Wheel(code: int): int {
    if code == REL_X then REL_HWHEEL else REL_WHEEL
  }

  function Scale(acc: int, mod: Divisor): (int, seq<int>) {
    if TruncDiv(acc, mod) != 0 then (TruncMod(acc, mod), [TruncDiv(acc, mod)]) else (acc, [])
  }

  predicate IsTrigger(e: Event, trigger: int) {
    e.kind == EV_KEY && e.code == trigger
  }

  function Step(s: State, e: Event): (State, seq<Event>) {
    if IsSyn(e) && s.eatNextSync then (s.(eatNextSync := false), [])
    else
      var s := s.(eatNextSync := false);
      if IsTrigger(e, s.trigger) then (s.(triggerOn := e.value != 0, eatNextSync := true), [])
      else if s.triggerOn && IsRel(e, REL_X) then
        var (x, out) := Scale(s.x + e.value, s.xmod);
        if out == [] then (s.(x := x, eatNextSync := true), [])
        else (s.(x := x), [Event(EV_REL, REL_HWHEEL, out[0])])
      else if s.triggerOn && IsRel(e, REL_Y) then
        var (y, out) := Scale(s.y + e.value, s.ymod);
        if out == [] then (s.(y := y, eatNextSync := true), [])
        else (s.(y := y), [Event(EV_REL, REL_WHEEL, out[0])])
      else (s, [e])
  }

  // Is the trigger held after these events? Only its last event tells.
  function Held(trigger: int, es: seq<Event>): bool
    decreases |es|
  {
    if es == [] then false
    else if IsTrigger(es[|es| - 1], trigger) then es[|es| - 1].value != 0
    else Held(trigger, es[..|es| - 1])
  }

  // Motion along an axis received while the trigger was held.
  function Captured(trigger: int, es: seq<Event>, code: int): int
    decreases |es|
  {
    if es == [] then 0
    else
      var init, e := es[..|es| - 1], es[|es| - 1];
      Captured(trigger, init, code) + if Held(trigger, init) then Motion(e, code) else 0
  }

  // Neither a sync nor a wheel step.
  predicate Plain(e: Event) {
    !IsSyn(e) && !IsRel(e, REL_HWHEEL) && !IsRel(e, REL_WHEEL)
  }

  // The plain events this filter has no business with, in order: all but the
  // trigger's own and the motion received while it was held.
  function Free(trigger: int, es: seq<Event>): seq<Event>
    decreases |es|
  {
    if es == [] then []
    else
      var init, e := es[..|es| - 1], es[|es| - 1];
      Free(trigger, init)
      + if Plain(e) && !IsTrigger(e, trigger) && !(IsMotion(e) && Held(trigger, init)) then [e] else []
  }

  lemma ScaleLaw(acc: int, mod: Divisor)
    ensures var (r, out) := Scale(acc, mod);
            && |out| <= 1 && (out != [] ==> out[0] != 0)
            && acc == mod * (if out == [] then 0 else out[0]) + r
            && Abs(r) < Abs(mod) && (acc >= 0 ==> r >= 0) && (acc <= 0 ==> r <= 0)
  {
    DivisionLaw(acc, mod);
  }

  lemma StepLaw(s: State, e: Event)
    ensures var (s', out) := Step(s, e);
            && s'.xmod == s.xmod && s'.ymod == s.ymod && s'.trigger == s.trigger
            && s'.triggerOn == (if IsTrigger(e, s.trigger) then e.value != 0 else s.triggerOn)
            && (out == [] || out == [out[0]])
            && (IsSyn(e) ==> !s'.eatNextSync && out == if s.eatNextSync then [] else [e])
            && (!IsSyn(e) ==> s'.eatNextSync == (out == []))
            && (!IsSyn(e) && !IsTrigger(e, s.trigger) && !(IsMotion(e) && s.triggerOn) ==> out == [e])
            && (IsTrigger(e, s.trigger) ==> out == [])
            && (IsMotion(e) && s.triggerOn && out != [] ==> out[0].kind == EV_REL && out[0].code == Wheel(e.code))
  {
    hide TruncDiv, TruncMod;
  }

  lemma StepKeeps(s: State, e: Event, code: int)
    requires s.Valid() && code in {REL_X, REL_Y}
    ensures var (s', out) := Step(s, e);
            && s'.Valid()
            && s.Rem(code) + (if s.triggerOn then Motion(e, code) else 0)
               == s.Mod(code) * (Sum(out, Wheel(code)) - Motion(e, Wheel(code))) + s'.Rem(code)
  {
    hide TruncDiv, TruncMod;
    var out := Step(s, e).1;
    if IsMotion(e) {
      ScaleLaw(s.Rem(e.code) + e.value, s.Mod(e.code));
    }
    if out != [] {
      SumOne(out[0], Wheel(code));
    }
  }

  lemma {:induction false} TriggerTracked(s: State, es: seq<Event>)
    requires !s.triggerOn
    ensures var s' := Run(Step, s, es).0;
            && s'.triggerOn == Held(s.trigger, es) && s'.trigger == s.trigger
            && s'.xmod == s.xmod && s'.ymod == s.ymod
    decreases |es|
  {
    hide Step;
    if es != [] {
      TriggerTracked(s, es[..|es| - 1]);
      StepLaw(Run(Step, s, es[..|es| - 1]).0, es[|es| - 1]);
    }
  }

  // Conservation: motion received while the trigger was held is the divisor times
  // the wheel steps added to the stream, plus a proper remainder.
  lemma {:induction false} Conservation(s: State, es: seq<Event>, code: int)
    requires s.Valid() && !s.triggerOn && code in {REL_X, REL_Y}
    ensures var (s', out) := Run(Step, s, es);
            && s'.Valid()
            && s.Rem(code) + Captured(s.trigger, es, code)
               == s.Mod(code) * (Sum(out, Wheel(code)) - Sum(es, Wheel(code))) + s'.Rem(code)
    decreases |es|
  {
    hide Step;
    if es != [] {
      var init, e := es[..|es| - 1], es[|es| - 1];
      Conservation(s, init, code);
      TriggerTracked(s, init);
      var (s1, out1) := Run(Step, s, init);
      StepKeeps(s1, e, code);
      var out2 := Step(s1, e).1;
      SumAppend(out1, out2, Wheel(code));
      Distribute(s.Mod(code), Sum(out1, Wheel(code)) - Sum(init, Wheel(code)),
                 Sum(out2, Wheel(code)) - Motion(e, Wheel(code)));
    }
  }

  lemma {:induction false} OneWayRemainder(s: State, es: seq<Event>, code: int, up: bool)
    requires s.Valid() && !s.triggerOn && s.Rem(code) == 0 && code in {REL_X, REL_Y} && SM.OneWay(es, code, up)
    ensures var r := Run(Step, s, es).0.Rem(code);
            && (up ==> r >= 0 && Captured(s.trigger, es, code) >= 0)
            && (!up ==> r <= 0 && Captured(s.trigger, es, code) <= 0)
    decreases |es|
  {
    hide Scale;
    if es != [] {
      var init, e := es[..|es| - 1], es[|es| - 1];
      assert e in es && forall i :: i in init ==> i in es;
      OneWayRemainder(s, init, code, up);
      TriggerTracked(s, init);
      var s1 := Run(Step, s, init).0;
      ScaleLaw(s1.x + e.value, s1.xmod);
      ScaleLaw(s1.y + e.value, s1.ymod);
    }
  }

  // From allocation, captured motion that never turns back becomes as many wheel steps as
  // C's quotient of all of it by the divisor: sideways for X, up and down for Y.
  lemma OneWayTurns(trigger: int, xmod: Divisor, ymod: Divisor, es: seq<Event>, up: bool)
    ensures var out := Run(Step, Init(trigger, xmod, ymod), es).1;
            && (SM.OneWay(es, REL_X, up) ==> Sum(out, REL_HWHEEL) - Sum(es, REL_HWHEEL)
                                             == TruncDiv(Captured(trigger, es, REL_X), xmod))
            && (SM.OneWay(es, REL_Y, up) ==> Sum(out, REL_WHEEL) - Sum(es, REL_WHEEL)
                                             == TruncDiv(Captured(trigger, es, REL_Y), ymod))
  {
    if SM.OneWay(es, REL_X, up) { OneWayTurn(Init(trigger, xmod, ymod), es, REL_X, up); }
    if SM.OneWay(es, REL_Y, up) { OneWayTurn(Init(trigger, xmod, ymod), es, REL_Y, up); }
  }

  lemma OneWayTurn(s: State, es: seq<Event>, code: int, up: bool)
    requires s == Init(s.trigger, s.xmod, s.ymod) && code in {REL_X, REL_Y} && SM.OneWay(es, code, up)
    ensures Sum(Run(Step, s, es).1, Wheel(code)) - Sum(es, Wheel(code))
         == TruncDiv(Captured(s.trigger, es, code), s.Mod(code))
  {
    hide Step, Run, TruncDiv, Captured, Sum, Held, SM.OneWay;
    Conservation(s, es, code);
    TriggerTracked(s, es);
    OneWayRemainder(s, es, code, up);
    var (s', out) := Run(Step, s, es);
    var turned := Sum(out, Wheel(code)) - Sum(es, Wheel(code));
    Quotient(Captured(s.trigger, es, code), s.Mod(code), turned, s'.Rem(code), up);
  }

  lemma Quotient(sum: int, mod: Divisor, q: int, r: int, up: bool)
    requires 0 + sum == mod * q + r && Abs(r) < Abs(mod)
    requires if up then r >= 0 && sum >= 0 else r <= 0 && sum <= 0
    ensures q == TruncDiv(sum, mod)
  {
    hide TruncDiv, TruncMod;
    DivisionUnique(sum, mod, q, r);
  }

  // The trigger is held when its last event was a press, and at first it is not.
  lemma {:induction false} HeldMeans(trigger: int, es: seq<Event>)
    ensures (forall j :: 0 <= j < |es| ==> !IsTrigger(es[j], trigger)) ==> !Held(trigger, es)
    ensures forall n :: 0 <= n < |es| && IsTrigger(es[n], trigger)
                        && (forall j :: n < j < |es| ==> !IsTrigger(es[j], trigger)) ==>
              (Held(trigger, es) <==> es[n].value != 0)
    decreases |es|
  {
    if es != [] && !IsTrigger(es[|es| - 1], trigger) {
      var init := es[..|es| - 1];
      HeldMeans(trigger, init);
      assert forall j :: 0 <= j < |init| ==> init[j] == es[j];
    }
  }

  // Everything else passes untouched, in order.
  lemma {:induction false} FreePasses(s: State, es: seq<Event>)
    requires !s.triggerOn
    ensures Filter(Plain, Run(Step, s, es).1) == Free(s.trigger, es)
    decreases |es|
  {
    hide Step;
    if es != [] {
      var init, e := es[..|es| - 1], es[|es| - 1];
      FreePasses(s, init);
      TriggerTracked(s, init);
      var (s1, out1) := Run(Step, s, init);
      StepLaw(s1, e);
      var out2 := Step(s1, e).1;
      FilterAppend(Plain, out1, out2);
      if out2 != [] { FilterOne(Plain, out2[0]); }
    }
  }

  // A sync is swallowed exactly when the event right before it was swallowed and was
  // not itself a sync: suppression reaches one event and no further.
  lemma SyncSuppression(s: State, es: seq<Event>, i: nat)
    requires !s.eatNextSync && i < |es| && IsSyn(es[i])
    ensures Swallowed(Step, s, es, i)
       <==> i > 0 && !IsSyn(es[i - 1]) && Swallowed(Step, s, es, i - 1)
  {
    hide Step;
    StepLaw(Before(Step, s, es, i), es[i]);
    if i == 0 {
      assert es[..0] == [];
    } else {
      BeforeNext(Step, s, es, i - 1);
      StepLaw(Before(Step, s, es, i - 1), es[i - 1]);
    }
  }

  // An accumulator step is SpeedMod's, on every sum, exactly for positive divisors.
  lemma ScaleIsDivide(mod: Divisor)
    ensures (forall acc :: Scale(acc, mod) == SM.Divide(acc, mod)) <==> mod >= 1
  {
    hide TruncDiv, TruncMod;
    forall acc | mod >= 1 ensures Scale(acc, mod) == SM.Divide(acc, mod) {
      SM.DivideLaw(acc, mod);
      DivisionLaw(acc, mod);
      DivisionLaw(Abs(acc), mod);
    }
    if mod < 1 {
      DivisionLaw(0, mod);
      assert Scale(0, mod) != SM.Divide(0, mod);
    }
  }

  // The same motion with its axes renamed to wheels.
  function Wheels(es: seq<Event>): seq<Event> {
    seq(|es|, i requires 0 <= i < |es| => if IsMotion(es[i]) then es[i].(code := Wheel(es[i].code)) else es[i])
  }

  predicate SameRemainders(s: State, t: SM.State) {
    s.x == t.x && s.y == t.y && s.xmod == t.xmod && s.ymod == t.ymod && s.xmod >= 1 && s.ymod >= 1
  }

  lemma SameScale(acc: int, mod: Divisor)
    requires mod >= 1
    ensures Scale(acc, mod) == SM.Divide(acc, mod) && |SM.Divide(acc, mod).1| <= 1
  {
    ScaleIsDivide(mod);
    SM.DivideLaw(acc, mod);
  }

  lemma HeldEvent(s: State, t: SM.State, e: Event)
    requires SameRemainders(s, t) && s.triggerOn && !IsTrigger(e, s.trigger)
    ensures var (s', out) := Step(s, e);
            var (t', slowed) := SM.Step(t, e);
            && SameRemainders(s', t') && s'.triggerOn && s'.trigger == s.trigger
            && (NotSyn(e) ==> out == Wheels(slowed))
  {
    hide Scale, SM.Divide;
    SameScale(s.x + e.value, s.xmod);
    SameScale(s.y + e.value, s.ymod);
  }

  lemma HeldStep(s: State, t: SM.State, e: Event)
    requires SameRemainders(s, t) && s.triggerOn && !IsTrigger(e, s.trigger)
    ensures Filter(NotSyn, Step(s, e).1) == Wheels(Filter(NotSyn, SM.Step(t, e).1))
  {
    hide Step, SM.Step;
    var out, slowed := Step(s, e).1, SM.Step(t, e).1;
    HeldEvent(s, t, e);
    StepLaw(s, e);
    SM.FlagLaw(t, e);
    if out != [] { FilterOne(NotSyn, out[0]); }
    if slowed != [] { FilterOne(NotSyn, slowed[0]); }
  }

  // While the trigger stays held the filter is SpeedMod with wheels for axes, on any
  // run and for any positive divisors; only syncs can differ.
  lemma {:induction false} HeldIsSpeedMod(s: State, t: SM.State, es: seq<Event>)
    requires SameRemainders(s, t) && s.triggerOn
    requires forall e :: e in es ==> !IsTrigger(e, s.trigger)
    ensures Filter(NotSyn, Run(Step, s, es).1) == Wheels(Filter(NotSyn, Run(SM.Step, t, es).1))
    ensures var s' := Run(Step, s, es).0;
            SameRemainders(s', Run(SM.Step, t, es).0) && s'.triggerOn && s'.trigger == s.trigger
    decreases |es|
  {
    hide Step, SM.Step, Filter;
    if es == [] {
      FilterNothing(NotSyn);
    } else {
      var init, e := es[..|es| - 1], es[|es| - 1];
      HeldIsSpeedMod(s, t, init);
      var (s1, out1) := Run(Step, s, init);
      var (t1, slow1) := Run(SM.Step, t, init);
      HeldEvent(s1, t1, e);
      HeldStep(s1, t1, e);
      var out2, slow2 := Step(s1, e).1, SM.Step(t1, e).1;
      FilterAppend(NotSyn, out1, out2);
      FilterAppend(NotSyn, slow1, slow2);
    }
  }

  predicate NoTrigger(trigger: int, es: seq<Event>) {
    forall e :: e in es ==> !IsTrigger(e, trigger)
  }

  // From the moment the trigger is pressed, exactly for positive divisors.
  lemma HeldIsSpeedModIff(trigger: int, xmod: Divisor, ymod: Divisor)
    ensures (forall es :: NoTrigger(trigger, es) ==>
               Filter(NotSyn, Run(Step, Init(trigger, xmod, ymod).(triggerOn := true), es).1)
               == Wheels(Filter(NotSyn, Run(SM.Step, SM.Init(xmod, ymod), es).1)))
       <==> xmod >= 1 && ymod >= 1
  {
    hide Step, SM.Step, Run, Filter;
    var s, t := Init(trigger, xmod, ymod).(triggerOn := true), SM.Init(xmod, ymod);
    if xmod >= 1 && ymod >= 1 {
      forall es | NoTrigger(trigger, es)
        ensures Filter(NotSyn, Run(Step, s, es).1) == Wheels(Filter(NotSyn, Run(SM.Step, t, es).1))
      {
        HeldIsSpeedMod(s, t, es);
      }
    } else {
      var zero := Event(EV_REL, if xmod < 1 then REL_X else REL_Y, 0);
      RunOne(Step, s, zero);
      RunOne(SM.Step, t, zero);
      ZeroMotion(s, t, zero);
      FilterOne(NotSyn, zero);
      FilterNothing(NotSyn);
      assert NoTrigger(trigger, [zero]);
    }
  }

  lemma ZeroMotion(s: State, t: SM.State, zero: Event)
    requires s == Init(s.trigger, s.xmod, s.ymod).(triggerOn := true) && t == SM.Init(s.xmod, s.ymod)
    requires zero.kind == EV_REL && zero.code in {REL_X, REL_Y} && zero.value == 0 && s.Mod(zero.code) < 1
    ensures Step(s, zero).1 == [] && SM.Step(t, zero).1 == [zero]
  {
    DivisionLaw(0, s.Mod(zero.code));
  }

  // From allocation and without its trigger the filter changes nothing, syncs included.
  lemma {:induction false} IdleWithoutTrigger(trigger: int, xmod: Divisor, ymod: Divisor, es: seq<Event>)
    requires NoTrigger(trigger, es)
    ensures Run(Step, Init(trigger, xmod, ymod), es) == (Init(trigger, xmod, ymod), es)
    decreases |es|
  {
    if es != [] {
      var init, e := es[..|es| - 1], es[|es| - 1];
      IdleWithoutTrigger(trigger, xmod, ymod, init);
      assert es == init + [e] && e in es;
    }
  }

  // With event values inside these bounds the sums the filter forms stay ints.
  lemma SumsFitInt(s: State, es: seq<Event>, i: nat)
    requires s.Valid() && !s.triggerOn && i < |es| && IsMotion(es[i])
    requires Abs(es[i].value) <= INT_MAX - Abs(s.Mod(es[i].code)) + 1
    ensures Abs(Before(Step, s, es, i).Rem(es[i].code) + es[i].value) <= INT_MAX
  {
    hide Step, Run;
    Conservation(s, es[..i], es[i].code);
    TriggerTracked(s, es[..i]);
  }
}
