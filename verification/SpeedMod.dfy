// src/filters/speed_mod_rel.c: slows a relative pointer down by dividing its
// motion, carrying the remainder of each axis from event to event.
module SpeedMod {
  import opened CArith
  import opened Events

  datatype State = State(x: int, y: int, xmod: Divisor, ymod: Divisor, eatNextSyn: bool)
  {
    function Rem(code: int): int {
      if code == REL_X then x else y
    }

    function Mod(code: int): Divisor {
      if code == REL_X then xmod else ymod
    }

    // The remainders are proper: what every run from Init keeps.
    predicate Valid() {
      Abs(x) < Abs(xmod) && Abs(y) < Abs(ymod)
    }
  }

  function Init(xmod: Divisor, ymod: Divisor): State {
    State(0, 0, xmod, ymod, false)
  }

  // One axis: the remainder to carry, and the motion to emit if any.
  function Divide(acc: int, mod: Divisor): (int, seq<int>) {
    if Abs(acc) >= mod
    then (Sgn(acc) * TruncMod(Abs(acc), mod), [TruncDiv(acc, mod)])
    else (acc, [])
  }

  function Step(s: State, e: Event): (State, seq<Event>) {
    if e.kind == EV_SYN && s.eatNextSyn then (s.(eatNextSyn := false), [])
    else if IsRel(e, REL_X) then
      var (x, out) := Divide(s.x + e.value, s.xmod);
      if out == [] then (s.(x := x, eatNextSyn := true), []) else (s.(x := x), [e.(value := out[0])])
    else if IsRel(e, REL_Y) then
      var (y, out) := Divide(s.y + e.value, s.ymod);
      if out == [] then (s.(y := y, eatNextSyn := true), []) else (s.(y := y), [e.(value := out[0])])
    else (s, [e])
  }

  lemma DivideLaw(acc: int, mod: Divisor)
    ensures var (r, out) := Divide(acc, mod);
            && |out| <= 1
            && acc == mod * (if out == [] then 0 else out[0]) + r
            && Abs(r) < Abs(mod) && (acc >= 0 ==> r >= 0) && (acc <= 0 ==> r <= 0)
            && (mod >= 1 ==> r == TruncMod(acc, mod)
                             && out == if TruncDiv(acc, mod) == 0 then [] else [TruncDiv(acc, mod)])
  {
    DivisionLaw(acc, mod);
    DivisionLaw(Abs(acc), mod);
  }

  lemma StepKeeps(s: State, e: Event, code: int)
    requires s.Valid() && code in {REL_X, REL_Y}
    ensures var (s', out) := Step(s, e);
            && s'.Valid() && s'.xmod == s.xmod && s'.ymod == s.ymod
            && s.Rem(code) + Motion(e, code) == s.Mod(code) * Sum(out, code) + s'.Rem(code)
  {
    var out := Step(s, e).1;
    if IsRel(e, REL_X) {
      DivideLaw(s.x + e.value, s.xmod);
    } else if IsRel(e, REL_Y) {
      DivideLaw(s.y + e.value, s.ymod);
    }
    if out != [] {
      SumOne(out[0], code);
    }
  }

  // Conservation: over any run the motion received along an axis is the divisor
  // times the motion handed on, plus the remainder carried, which is proper.
  lemma {:induction false} Conservation(s: State, es: seq<Event>, code: int)
    requires s.Valid() && code in {REL_X, REL_Y}
    ensures var (s', out) := Run(Step, s, es);
            && s'.Valid() && s'.xmod == s.xmod && s'.ymod == s.ymod
            && s.Rem(code) + Sum(es, code) == s.Mod(code) * Sum(out, code) + s'.Rem(code)
    decreases |es|
  {
    hide Divide, Step;
    if es != [] {
      var n := |es| - 1;
      Conservation(s, es[..n], code);
      var (s1, out1) := Run(Step, s, es[..n]);
      StepKeeps(s1, es[n], code);
      var (s2, out2) := Step(s1, es[n]);
      SumAppend(out1, out2, code);
      Distribute(s.Mod(code), Sum(out1, code), Sum(out2, code));
    }
  }

  // Motion along an axis that never turns back.
  predicate OneWay(es: seq<Event>, code: int, up: bool) {
    forall e :: e in es && IsRel(e, code) ==> if up then e.value >= 0 else e.value <= 0
  }

  lemma {:induction false} OneWayRemainder(s: State, es: seq<Event>, code: int, up: bool)
    requires s.Valid() && s.Rem(code) == 0 && code in {REL_X, REL_Y} && OneWay(es, code, up)
    ensures var r := Run(Step, s, es).0.Rem(code);
            (up ==> r >= 0 && Sum(es, code) >= 0) && (!up ==> r <= 0 && Sum(es, code) <= 0)
    decreases |es|
  {
    hide Divide;
    if es != [] {
      var init, e := es[..|es| - 1], es[|es| - 1];
      assert e in es && forall i :: i in init ==> i in es;
      OneWayRemainder(s, init, code, up);
      var s1 := Run(Step, s, init).0;
      DivideLaw(s1.x + e.value, s1.xmod);
      DivideLaw(s1.y + e.value, s1.ymod);
    }
  }

  // From allocation, motion that never turns back is handed on as the quotient, in C's
  // sense, of all of it by the divisor: nothing is lost to rounding event by event.
  lemma OneWayDivides(xmod: Divisor, ymod: Divisor, es: seq<Event>, code: int, up: bool)
    requires code in {REL_X, REL_Y} && OneWay(es, code, up)
    ensures Sum(Run(Step, Init(xmod, ymod), es).1, code)
         == TruncDiv(Sum(es, code), if code == REL_X then xmod else ymod)
  {
    hide Step, Run, TruncDiv, TruncMod;
    var s := Init(xmod, ymod);
    Conservation(s, es, code);
    OneWayRemainder(s, es, code, up);
    var (s', out) := Run(Step, s, es);
    DivisionUnique(Sum(es, code), s.Mod(code), Sum(out, code), s'.Rem(code));
  }

  // With event values inside these bounds the sums the filter forms stay ints.
  lemma SumsFitInt(s: State, es: seq<Event>, i: nat, code: int)
    requires s.Valid() && code in {REL_X, REL_Y} && i < |es| && IsRel(es[i], code)
    requires Abs(es[i].value) <= INT_MAX - Abs(s.Mod(code)) + 1
    ensures Abs(Before(Step, s, es, i).Rem(code) + es[i].value) <= INT_MAX
  {
    hide Step, Run;
    Conservation(s, es[..i], code);
  }

  // A filter never emits zero motion, in any state and for any event, exactly when
  // both of its divisors are positive.
  lemma NeverEmitsZero(xmod: Divisor, ymod: Divisor)
    ensures (forall s: State, e: Event :: s.xmod == xmod && s.ymod == ymod && IsMotion(e) ==>
               forall o :: o in Step(s, e).1 ==> o.value != 0)
       <==> xmod >= 1 && ymod >= 1
  {
    hide TruncDiv, TruncMod;
    if xmod >= 1 && ymod >= 1 {
      forall s: State, e: Event, o | s.xmod == xmod && s.ymod == ymod && IsMotion(e) && o in Step(s, e).1
        ensures o.value != 0
      {
        DivideLaw(s.x + e.value, s.xmod);
        DivideLaw(s.y + e.value, s.ymod);
      }
    } else {
      var s := Init(xmod, ymod);
      var e := Event(EV_REL, if xmod >= 1 then REL_Y else REL_X, 0);
      DivideLaw(0, if xmod >= 1 then ymod else xmod);
      var out := Step(s, e).1;
      DivisionLaw(0, if xmod >= 1 then ymod else xmod);
      assert out[0] in out && out[0].value == 0;
    }
  }

  // What one event does to the swallow flag, and what leaves.
  lemma FlagLaw(s: State, e: Event)
    ensures var (s', out) := Step(s, e);
            && s'.xmod == s.xmod && s'.ymod == s.ymod
            && (out == [] || (out == [out[0]] && out[0].kind == e.kind && out[0].code == e.code))
            && (IsMotion(e) ==> s'.eatNextSyn == (s.eatNextSyn || out == []))
            && (IsSyn(e) ==> !s'.eatNextSyn && out == if s.eatNextSyn then [] else [e])
            && (!IsMotion(e) ==> s' == s.(eatNextSyn := s'.eatNextSyn))
            && (!IsMotion(e) && !IsSyn(e) ==> s' == s && out == [e])
  {
  }

  // Before event n some motion is withheld and no EV_SYN has passed since.
  ghost predicate Pending(s: State, es: seq<Event>, n: nat)
    requires n <= |es|
  {
    exists j :: 0 <= j < n && IsMotion(es[j]) && Swallowed(Step, s, es, j) && SynFree(es, j + 1, n)
  }

  predicate SynFree(es: seq<Event>, from: nat, to: nat)
    requires from <= to <= |es|
  {
    forall k :: from <= k < to ==> !IsSyn(es[k])
  }

  lemma {:induction false} FlagIsPending(s: State, es: seq<Event>, n: nat)
    requires !s.eatNextSyn && n <= |es|
    ensures Before(Step, s, es, n).eatNextSyn <==> Pending(s, es, n)
  {
    hide Step, Run;
    if n == 0 {
      assert es[..0] == [];
      RunNothing(Step, s);
    } else {
      var i := n - 1;
      FlagIsPending(s, es, i);
      BeforeNext(Step, s, es, i);
      FlagLaw(Before(Step, s, es, i), es[i]);
      if IsMotion(es[i]) && Swallowed(Step, s, es, i) {
        assert SynFree(es, i + 1, n);
      } else if !IsSyn(es[i]) {
        if Pending(s, es, i) {
          var j :| 0 <= j < i && IsMotion(es[j]) && Swallowed(Step, s, es, j) && SynFree(es, j + 1, i);
          assert SynFree(es, j + 1, n);
        }
        if Pending(s, es, n) {
          var j :| 0 <= j < n && IsMotion(es[j]) && Swallowed(Step, s, es, j) && SynFree(es, j + 1, n);
          assert SynFree(es, j + 1, i);
        }
      }
    }
  }

  // An EV_SYN is swallowed exactly when motion was withheld since the previous one;
  // everything that is neither EV_SYN nor motion always passes.
  lemma SynSuppression(s: State, es: seq<Event>, i: nat)
    requires !s.eatNextSyn && i < |es|
    ensures IsSyn(es[i]) ==> (Swallowed(Step, s, es, i) <==> Pending(s, es, i))
    ensures !IsSyn(es[i]) && !IsMotion(es[i]) ==> Emits(Step, s, es, i) == [es[i]]
  {
    FlagIsPending(s, es, i);
  }
}
