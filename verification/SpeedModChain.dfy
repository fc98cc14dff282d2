// Two SpeedMod filters in a row against one whose divisors are the products.
module SpeedModChain {
  import opened CArith
  import opened Events
  import SM = SpeedMod

  predicate Positive(s: SM.State) {
    s.Valid() && s.xmod >= 1 && s.ymod >= 1
  }

  // c stands for a followed by b: products of divisors, remainders combined.
  predicate StandsFor(a: SM.State, b: SM.State, c: SM.State) {
    && Positive(a) && Positive(b) && Positive(c)
    && c.xmod == a.xmod * b.xmod && c.x == a.xmod * b.x + a.x
    && c.ymod == a.ymod * b.ymod && c.y == a.ymod * b.y + a.y
  }

  lemma ProductBound(ma: int, mb: int, ra: int, rb: int)
    requires ma >= 1 && mb >= 1 && Abs(ra) < ma && Abs(rb) < mb
    ensures ma * mb >= 1
    ensures Abs(ma * rb + ra) < ma * mb
  {
    MulMonotone(ma, 1 - mb, rb);
    MulMonotone(ma, rb, mb - 1);
    MulMonotone(ma, 1, mb);
    assert ma * (mb - 1) == ma * mb - ma;
    assert ma * (1 - mb) == ma - ma * mb;
  }

  // One axis of the pair does, for every event, what the product filter does.
  lemma AxisAgrees(a: int, b: int, v: int, ma: int, mb: int)
    requires ma >= 1 && mb >= 1 && Abs(a) < ma && Abs(b) < mb
    ensures ma * mb >= 1
    ensures var (ra, outA) := SM.Divide(a + v, ma);
            var (rb, outB) := if outA == [] then (b, []) else SM.Divide(b + outA[0], mb);
            SM.Divide(ma * b + a + v, ma * mb) == (ma * rb + ra, outB)
            && Abs(ra) < ma && Abs(rb) < mb
  {
    hide TruncDiv, TruncMod;
    var (ra, outA) := SM.Divide(a + v, ma);
    var q := if outA == [] then 0 else outA[0];
    SM.DivideLaw(a + v, ma);
    DivisionLaw(a + v, ma);
    var (rb, outB) := SM.Divide(b + q, mb);
    var t := if outB == [] then 0 else outB[0];
    SM.DivideLaw(b + q, mb);
    DivisionLaw(b + q, mb);
    ProductBound(ma, mb, ra, rb);
    SM.DivideLaw(ma * b + a + v, ma * mb);
    Nested(ma, mb, a + v, b, q, ra, t, rb);
  }

  // Dividing by ma and then by mb is dividing by their product.
  lemma Nested(ma: int, mb: int, x: int, b: int, q: int, ra: int, t: int, rb: int)
    requires ma >= 1 && mb >= 1 && ma * mb >= 1 && Abs(b) < mb
    requires q == TruncDiv(x, ma) && ra == TruncMod(x, ma)
    requires t == TruncDiv(b + q, mb) && rb == TruncMod(b + q, mb)
    ensures TruncDiv(ma * b + x, ma * mb) == t
    ensures TruncMod(ma * b + x, ma * mb) == ma * rb + ra
  {
    DivisionLaw(x, ma);
    DivisionLaw(b + q, mb);
    Regroup(ma, mb, b, q, t, rb);
    ProductBound(ma, mb, ra, rb);
    if t != 0 {
      if q != 0 { SameSign(x, ma, q, ra); }
      RemainderSign(ma, mb, q, t, b, ra, rb);
    } else {
      assert ma * mb * t == 0;
    }
    DivisionUnique(ma * b + x, ma * mb, t, ma * rb + ra);
  }

  lemma Regroup(ma: int, mb: int, b: int, q: int, t: int, rb: int)
    requires b + q == mb * t + rb
    ensures ma * b + ma * q == ma * mb * t + ma * rb
  {
    assert ma * b + ma * q == ma * (mb * t + rb);
    assert ma * (mb * t + rb) == ma * (mb * t) + ma * rb;
    assert ma * (mb * t) == ma * mb * t;
  }

  // A non-zero quotient carries the sign of the dividend.
  lemma SameSign(x: int, d: int, q: int, r: int)
    requires d >= 1 && x == d * q + r && Abs(r) < d && q != 0
    ensures q > 0 <==> x > 0
    ensures q < 0 <==> x < 0
  {
    if q > 0 {
      MulMonotone(d, 1, q);
    } else {
      MulMonotone(d, q, -1);
    }
  }

  lemma RemainderSign(ma: int, mb: int, q: int, t: int, b: int, ra: int, rb: int)
    requires ma >= 1 && mb >= 1 && Abs(b) < mb && Abs(ra) < ma && Abs(rb) < mb
    requires t != 0 && q != 0 && b + q == mb * t + rb
    requires q > 0 ==> ra >= 0
    requires q < 0 ==> ra <= 0
    requires b + q >= 0 ==> rb >= 0
    requires b + q <= 0 ==> rb <= 0
    ensures var r := ma * rb + ra;
            var c := ma * mb * t + r;
            (c >= 0 ==> r >= 0) && (c <= 0 ==> r <= 0)
  {
    ProductBound(ma, mb, ra, rb);
    SameSign(b + q, mb, t, rb);
    SameSign(ma * mb * t + (ma * rb + ra), ma * mb, t, ma * rb + ra);
    if t > 0 {
      MulMonotone(mb, 1, t);
      MulMonotone(ma, 0, rb);
    } else {
      MulMonotone(mb, t, -1);
      MulMonotone(ma, rb, 0);
    }
  }

  // The stream that leaves the second of two filters.
  function Through(a: SM.State, b: SM.State, es: seq<Event>): seq<Event> {
    Run(SM.Step, b, Run(SM.Step, a, es).1).1
  }

  function Direct(c: SM.State, es: seq<Event>): seq<Event> {
    Run(SM.Step, c, es).1
  }

  // The second filter's answer to what the first lets through of one event.
  function Second(b: SM.State, mid: seq<Event>): (SM.State, seq<Event>)
    requires |mid| <= 1
  {
    if mid == [] then (b, []) else SM.Step(b, mid[0])
  }

  lemma SecondIsRun(b: SM.State, mid: seq<Event>)
    requires |mid| <= 1
    ensures Run(SM.Step, b, mid) == Second(b, mid)
  {
    if mid != [] {
      RunOne(SM.Step, b, mid[0]);
      assert mid == [mid[0]];
    }
  }

  lemma AxisStandsFor(a: int, b: int, c: int, v: int, ma: Divisor, mb: Divisor, mc: Divisor)
    requires ma >= 1 && mb >= 1 && mc == ma * mb && c == ma * b + a && Abs(a) < ma && Abs(b) < mb
    ensures var (ra, outA) := SM.Divide(a + v, ma);
            var (rb, outB) := if outA == [] then (b, []) else SM.Divide(b + outA[0], mb);
            var (rc, outC) := SM.Divide(c + v, mc);
            && outC == outB && rc == ma * rb + ra
            && |outA| <= 1 && |outB| <= 1
            && Abs(ra) < ma && Abs(rb) < mb && Abs(rc) < mc
  {
    hide TruncDiv, TruncMod;
    AxisAgrees(a, b, v, ma, mb);
    assert c + v == ma * b + a + v;
    SM.DivideLaw(a + v, ma);
    SM.DivideLaw(c + v, mc);
  }

  lemma XAgrees(a: SM.State, b: SM.State, c: SM.State, v: int)
    requires StandsFor(a, b, c)
    ensures var (ra, outA) := SM.Divide(a.x + v, a.xmod);
            var (rb, outB) := if outA == [] then (b.x, []) else SM.Divide(b.x + outA[0], b.xmod);
            var (rc, outC) := SM.Divide(c.x + v, c.xmod);
            outC == outB && |outA| <= 1 && |outB| <= 1 && StandsFor(a.(x := ra), b.(x := rb), c.(x := rc))
  {
    AxisStandsFor(a.x, b.x, c.x, v, a.xmod, b.xmod, c.xmod);
  }

  lemma YAgrees(a: SM.State, b: SM.State, c: SM.State, v: int)
    requires StandsFor(a, b, c)
    ensures var (ra, outA) := SM.Divide(a.y + v, a.ymod);
            var (rb, outB) := if outA == [] then (b.y, []) else SM.Divide(b.y + outA[0], b.ymod);
            var (rc, outC) := SM.Divide(c.y + v, c.ymod);
            outC == outB && |outA| <= 1 && |outB| <= 1 && StandsFor(a.(y := ra), b.(y := rb), c.(y := rc))
  {
    AxisStandsFor(a.y, b.y, c.y, v, a.ymod, b.ymod, c.ymod);
  }

  // The swallow flags play no part in StandsFor.
  lemma FlagsApart(a: SM.State, b: SM.State, c: SM.State, fa: bool, fb: bool, fc: bool)
    requires StandsFor(a, b, c)
    ensures StandsFor(a.(eatNextSyn := fa), b.(eatNextSyn := fb), c.(eatNextSyn := fc))
  {
  }

  lemma XMotionAgrees(a: SM.State, b: SM.State, c: SM.State, e: Event)
    requires StandsFor(a, b, c) && IsRel(e, REL_X)
    ensures var (a', mid) := SM.Step(a, e);
            var (b', out) := Second(b, mid);
            var (c', direct) := SM.Step(c, e);
            StandsFor(a', b', c') && out == direct
  {
    hide SM.Divide, StandsFor;
    var (a', mid) := SM.Step(a, e);
    var b', c' := Second(b, mid).0, SM.Step(c, e).0;
    XAgrees(a, b, c, e.value);
    FlagsApart(a.(x := a'.x), b.(x := b'.x), c.(x := c'.x), a'.eatNextSyn, b'.eatNextSyn, c'.eatNextSyn);
  }

  lemma YMotionAgrees(a: SM.State, b: SM.State, c: SM.State, e: Event)
    requires StandsFor(a, b, c) && IsRel(e, REL_Y)
    ensures var (a', mid) := SM.Step(a, e);
            var (b', out) := Second(b, mid);
            var (c', direct) := SM.Step(c, e);
            StandsFor(a', b', c') && out == direct
  {
    hide SM.Divide, StandsFor;
    var (a', mid) := SM.Step(a, e);
    var b', c' := Second(b, mid).0, SM.Step(c, e).0;
    YAgrees(a, b, c, e.value);
    FlagsApart(a.(y := a'.y), b.(y := b'.y), c.(y := c'.y), a'.eatNextSyn, b'.eatNextSyn, c'.eatNextSyn);
  }

  lemma MotionAgrees(a: SM.State, b: SM.State, c: SM.State, e: Event)
    requires StandsFor(a, b, c) && IsMotion(e)
    ensures var (a', mid) := SM.Step(a, e);
            var (b', out) := Second(b, mid);
            var (c', direct) := SM.Step(c, e);
            StandsFor(a', b', c') && out == direct
  {
    hide SM.Step, SM.Divide, StandsFor;
    if IsRel(e, REL_X) {
      XMotionAgrees(a, b, c, e);
    } else {
      YMotionAgrees(a, b, c, e);
    }
  }

  lemma StepAgrees(a: SM.State, b: SM.State, c: SM.State, e: Event)
    requires StandsFor(a, b, c)
    ensures var (a', mid) := SM.Step(a, e);
            var (b', out) := Run(SM.Step, b, mid);
            var (c', direct) := SM.Step(c, e);
            && StandsFor(a', b', c')
            && (NotSyn(e) ==> out == direct)
            && (IsSyn(e) ==> out == if a.eatNextSyn || b.eatNextSyn then [] else [e])
            && (IsSyn(e) ==> b'.eatNextSyn == (b.eatNextSyn && a.eatNextSyn))
  {
    hide SM.Step, SM.Divide, StandsFor;
    var mid := SM.Step(a, e).1;
    SM.FlagLaw(a, e);
    SM.FlagLaw(c, e);
    SecondIsRun(b, mid);
    if mid != [] { SM.FlagLaw(b, mid[0]); }
    if IsMotion(e) {
      MotionAgrees(a, b, c, e);
    } else {
      FlagsApart(a, b, c, SM.Step(a, e).0.eatNextSyn, Second(b, mid).0.eatNextSyn, SM.Step(c, e).0.eatNextSyn);
    }
  }

  // The same for the swallow flags, on an event that is not an EV_SYN.
  lemma FlagsAgree(a: SM.State, b: SM.State, c: SM.State, e: Event)
    requires StandsFor(a, b, c) && NotSyn(e)
    ensures var (a', mid) := SM.Step(a, e);
            var (b', out) := Run(SM.Step, b, mid);
            var c' := SM.Step(c, e).0;
            if IsMotion(e) then
              && a'.eatNextSyn == (a.eatNextSyn || mid == [])
              && b'.eatNextSyn == (b.eatNextSyn || (mid != [] && out == []))
              && c'.eatNextSyn == (c.eatNextSyn || out == [])
              && (mid == [] ==> out == [])
            else a' == a && b' == b && c' == c
  {
    hide SM.Step, SM.Divide, StandsFor;
    var mid := SM.Step(a, e).1;
    SM.FlagLaw(a, e);
    SM.FlagLaw(c, e);
    SecondIsRun(b, mid);
    if mid != [] { SM.FlagLaw(b, mid[0]); }
    if IsMotion(e) { MotionAgrees(a, b, c, e); }
  }

  // Advance both sides by the last event of a run.
  lemma Unroll(a: SM.State, b: SM.State, es: seq<Event>)
    requires es != []
    ensures var init, e := es[..|es| - 1], es[|es| - 1];
            var (a1, mid) := Run(SM.Step, a, init);
            var (b1, out) := Run(SM.Step, b, mid);
            var (a2, midE) := SM.Step(a1, e);
            var (b2, outE) := Run(SM.Step, b1, midE);
            && Run(SM.Step, a, es) == (a2, mid + midE)
            && Run(SM.Step, b, mid + midE) == (b2, out + outE)
  {
    var init, e := es[..|es| - 1], es[|es| - 1];
    var (a1, mid) := Run(SM.Step, a, init);
    RunAppend(SM.Step, b, mid, SM.Step(a1, e).1);
  }

  // The states of the two filters and of the single one, after a run.
  predicate StandsForAfter(a: SM.State, b: SM.State, c: SM.State, es: seq<Event>) {
    var (a', mid) := Run(SM.Step, a, es);
    StandsFor(a', Run(SM.Step, b, mid).0, Run(SM.Step, c, es).0)
  }

  lemma {:induction false} StandsForKept(a: SM.State, b: SM.State, c: SM.State, es: seq<Event>)
    requires StandsFor(a, b, c)
    ensures StandsForAfter(a, b, c, es)
    decreases |es|
  {
    hide SM.Step, StandsFor;
    if es != [] {
      var init, e := es[..|es| - 1], es[|es| - 1];
      StandsForKept(a, b, c, init);
      Unroll(a, b, es);
      var (a1, mid) := Run(SM.Step, a, init);
      StepAgrees(a1, Run(SM.Step, b, mid).0, Run(SM.Step, c, init).0, e);
    }
  }

  // On every run two filters emit, event for event, the motion one filter with the
  // product divisors emits; only EV_SYN events can differ.
  lemma {:induction false} PairEmitsProductMotion(a: SM.State, b: SM.State, c: SM.State, es: seq<Event>)
    requires StandsFor(a, b, c)
    ensures Filter(NotSyn, Through(a, b, es)) == Filter(NotSyn, Direct(c, es))
    decreases |es|
  {
    hide SM.Step, StandsFor, Filter;
    if es != [] {
      var init, e := es[..|es| - 1], es[|es| - 1];
      PairEmitsProductMotion(a, b, c, init);
      StandsForKept(a, b, c, init);
      Unroll(a, b, es);
      var (a1, mid) := Run(SM.Step, a, init);
      var (b1, out) := Run(SM.Step, b, mid);
      var (c1, direct) := Run(SM.Step, c, init);
      var outE := Run(SM.Step, b1, SM.Step(a1, e).1).1;
      var directE := SM.Step(c1, e).1;
      EventMotionEqual(a1, b1, c1, e);
      FilterAppend(NotSyn, out, outE);
      FilterAppend(NotSyn, direct, directE);
    }
  }

  lemma EventMotionEqual(a: SM.State, b: SM.State, c: SM.State, e: Event)
    requires StandsFor(a, b, c)
    ensures Filter(NotSyn, Run(SM.Step, b, SM.Step(a, e).1).1) == Filter(NotSyn, SM.Step(c, e).1)
  {
    hide SM.Step, SM.Divide, StandsFor;
    StepAgrees(a, b, c, e);
    SM.FlagLaw(c, e);
    if IsSyn(e) {
      NoneLeft(Run(SM.Step, b, SM.Step(a, e).1).1);
      NoneLeft(SM.Step(c, e).1);
    }
  }

  lemma NoneLeft(es: seq<Event>)
    requires |es| <= 1 && forall i :: 0 <= i < |es| ==> IsSyn(es[i])
    ensures Filter(NotSyn, es) == []
  {
    if es != [] { assert es[..0] == []; }
  }

  // Syncs carry no motion.
  lemma {:induction false} SumIgnoresSyncs(es: seq<Event>, code: int)
    ensures Sum(Filter(NotSyn, es), code) == Sum(es, code)
    decreases |es|
  {
    if es != [] {
      var init, e := es[..|es| - 1], es[|es| - 1];
      SumIgnoresSyncs(init, code);
      SumAppend(Filter(NotSyn, init), if NotSyn(e) then [e] else [], code);
      SumOne(e, code);
    }
  }

  // After every prefix of every run the pair stays within the product of its divisors of
  // what it received, whatever their signs, and if they are positive it has handed on
  // what one filter with the product divisor would have.
  lemma PairStaysWithinProduct(a: SM.State, b: SM.State, es: seq<Event>, n: nat, code: int)
    requires a.Valid() && b.Valid() && n <= |es| && code in {REL_X, REL_Y} && a.Rem(code) == 0 && b.Rem(code) == 0
    ensures Abs(Sum(es[..n], code) - a.Mod(code) * b.Mod(code) * Sum(Through(a, b, es[..n]), code))
          < Abs(a.Mod(code)) * Abs(b.Mod(code))
    ensures forall c :: StandsFor(a, b, c) ==> Sum(Through(a, b, es[..n]), code) == Sum(Direct(c, es[..n]), code)
  {
    hide SM.Step, Run, Filter;
    var (a', mid) := Run(SM.Step, a, es[..n]);
    var (b', out) := Run(SM.Step, b, mid);
    SM.Conservation(a, es[..n], code);
    SM.Conservation(b, mid, code);
    var s := Sum(out, code);
    NestedRemainder(a.Mod(code), b.Mod(code), Sum(es[..n], code), Sum(mid, code), s, a'.Rem(code), b'.Rem(code));
    forall c | StandsFor(a, b, c) ensures s == Sum(Direct(c, es[..n]), code) {
      PairEmitsProductMotion(a, b, c, es[..n]);
      SumIgnoresSyncs(out, code);
      SumIgnoresSyncs(Direct(c, es[..n]), code);
    }
  }

  lemma NestedRemainder(ma: int, mb: int, sum: int, mid: int, out: int, ra: int, rb: int)
    requires sum == ma * mid + ra && mid == mb * out + rb && Abs(ra) < Abs(ma) && Abs(rb) < Abs(mb)
    ensures Abs(sum - ma * mb * out) < Abs(ma) * Abs(mb)
  {
    Substitute(ma, mb, out, rb);
    BelowProductOfAbs(ma, mb, rb);
  }

  lemma Substitute(ma: int, mb: int, out: int, rb: int)
    ensures ma * (mb * out + rb) == ma * mb * out + ma * rb
  {
  }

  lemma BelowProductOfAbs(ma: int, mb: int, rb: int)
    requires Abs(rb) < Abs(mb)
    ensures Abs(ma * rb) <= Abs(ma) * Abs(mb) - Abs(ma)
  {
    ProductOfAbs(ma, rb);
    MulMonotone(Abs(ma), Abs(rb), Abs(mb) - 1);
    Distribute(Abs(ma), Abs(mb), -1);
  }

  lemma ProductOfAbs(p: int, q: int)
    ensures Abs(p * q) == Abs(p) * Abs(q)
  {
    Signs(p, q);
    Signs(q, p);
    if p >= 0 { MulMonotone(p, 0, Abs(q)); } else { MulMonotone(-p, 0, Abs(q)); }
  }

  // Motion events received since the last EV_SYN.
  function OpenMotions(es: seq<Event>): nat
    decreases |es|
  {
    if es == [] || IsSyn(es[|es| - 1]) then 0
    else OpenMotions(es[..|es| - 1]) + if IsMotion(es[|es| - 1]) then 1 else 0
  }

  // At no point has more than one motion event arrived since the last EV_SYN.
  predicate Sparse(es: seq<Event>) {
    forall n :: 0 <= n <= |es| ==> OpenMotions(es[..n]) <= 1
  }

  // The swallow flags of the pair never overlap, and add up to the single filter's.
  predicate FlagsSplit(a: SM.State, b: SM.State, c: SM.State) {
    && c.eatNextSyn == (a.eatNextSyn || b.eatNextSyn)
    && !(a.eatNextSyn && b.eatNextSyn)
  }

  // With one motion event per EV_SYN the streams are equal, EV_SYN events included.
  lemma {:induction false} SparseStreamsEqual(a: SM.State, b: SM.State, c: SM.State, es: seq<Event>)
    requires StandsFor(a, b, c) && Sparse(es)
    requires !a.eatNextSyn && !b.eatNextSyn && !c.eatNextSyn
    ensures Through(a, b, es) == Direct(c, es)
    ensures var (a', mid) := Run(SM.Step, a, es);
            var b', c' := Run(SM.Step, b, mid).0, Run(SM.Step, c, es).0;
            FlagsSplit(a', b', c') && (OpenMotions(es) == 0 ==> !c'.eatNextSyn)
    decreases |es|
  {
    hide SM.Step, StandsFor;
    if es != [] {
      var init, e := es[..|es| - 1], es[|es| - 1];
      assert forall n :: 0 <= n <= |init| ==> init[..n] == es[..n];
      assert es[..|es|] == es;
      SparseStreamsEqual(a, b, c, init);
      StandsForKept(a, b, c, init);
      Unroll(a, b, es);
      var (a1, mid) := Run(SM.Step, a, init);
      var b1, c1 := Run(SM.Step, b, mid).0, Run(SM.Step, c, init).0;
      StepAgrees(a1, b1, c1, e);
      SM.FlagLaw(c1, e);
      SM.FlagLaw(a1, e);
      if NotSyn(e) { FlagsAgree(a1, b1, c1, e); }
    }
  }

  lemma UnitNeverWithholds(a: SM.State, b: SM.State, e: Event)
    requires Positive(a) && b.Valid() && b.xmod == 1 && b.ymod == 1 && NotSyn(e)
    ensures var mid := SM.Step(a, e).1;
            mid != [] ==> Run(SM.Step, b, mid).1 != []
  {
    hide TruncDiv, TruncMod;
    var mid := SM.Step(a, e).1;
    SM.FlagLaw(a, e);
    SecondIsRun(b, mid);
    if mid != [] && IsMotion(e) {
      SM.DivideLaw(a.x + e.value, a.xmod);
      SM.DivideLaw(a.y + e.value, a.ymod);
    }
  }

  // With a second filter that divides by one nothing is ever withheld twice.
  lemma {:induction false} UnitSecondEqual(a: SM.State, b: SM.State, c: SM.State, es: seq<Event>)
    requires StandsFor(a, b, c) && b.xmod == 1 && b.ymod == 1
    requires !a.eatNextSyn && !b.eatNextSyn && !c.eatNextSyn
    ensures Through(a, b, es) == Direct(c, es)
    ensures var (a', mid) := Run(SM.Step, a, es);
            var b' := Run(SM.Step, b, mid).0;
            && b'.xmod == 1 && b'.ymod == 1 && !b'.eatNextSyn
            && Run(SM.Step, c, es).0.eatNextSyn == a'.eatNextSyn
    decreases |es|
  {
    hide SM.Step, StandsFor;
    if es != [] {
      var init, e := es[..|es| - 1], es[|es| - 1];
      UnitSecondEqual(a, b, c, init);
      StandsForKept(a, b, c, init);
      Unroll(a, b, es);
      var (a1, mid) := Run(SM.Step, a, init);
      UnitSecondStep(a1, Run(SM.Step, b, mid).0, Run(SM.Step, c, init).0, e);
    }
  }

  lemma UnitSecondStep(a: SM.State, b: SM.State, c: SM.State, e: Event)
    requires StandsFor(a, b, c) && b.xmod == 1 && b.ymod == 1
    requires !b.eatNextSyn && c.eatNextSyn == a.eatNextSyn
    ensures var (a', mid) := SM.Step(a, e);
            var (b', out) := Run(SM.Step, b, mid);
            var (c', direct) := SM.Step(c, e);
            && out == direct && b'.xmod == 1 && b'.ymod == 1
            && !b'.eatNextSyn && c'.eatNextSyn == a'.eatNextSyn
  {
    hide SM.Step, SM.Divide;
    var mid := SM.Step(a, e).1;
    StepAgrees(a, b, c, e);
    SM.FlagLaw(c, e);
    SM.FlagLaw(a, e);
    if mid != [] { SM.FlagLaw(b, mid[0]); }
    SecondIsRun(b, mid);
    if NotSyn(e) {
      FlagsAgree(a, b, c, e);
      UnitNeverWithholds(a, b, e);
    }
  }

  // ---- Which divisors ----

  // The product of divisors, for a divisor.
  function Times(p: Divisor, q: Divisor): (r: Divisor)
    ensures r == p * q
    ensures (p > 0 && q > 0 ==> r > 0) && (p < 0 && q < 0 ==> r > 0)
    ensures (p > 0 && q < 0 ==> r < 0) && (p < 0 && q > 0 ==> r < 0)
  {
    ProductOfAbs(p, q);
    MulMonotone(Abs(p), 1, Abs(q));
    SignOfProduct(p, q);
    p * q
  }

  lemma SignOfProduct(p: int, q: int)
    requires p != 0 && q != 0
    ensures p * q != 0
    ensures (p > 0) == (q > 0) ==> p * q > 0
    ensures (p > 0) != (q > 0) ==> p * q < 0
  {
    MulMonotone(Abs(p), 1, Abs(q));
    Signs(p, q);
    Signs(q, p);
  }

  predicate AllPositive(a: SM.State, b: SM.State) {
    a.xmod >= 1 && a.ymod >= 1 && b.xmod >= 1 && b.ymod >= 1
  }

  // One filter for two new ones.
  function Product(a: SM.State, b: SM.State): SM.State {
    SM.Init(Times(a.xmod, b.xmod), Times(a.ymod, b.ymod))
  }

  predicate IsNew(s: SM.State) {
    s == SM.Init(s.xmod, s.ymod)
  }

  lemma NewStandsFor(a: SM.State, b: SM.State)
    requires IsNew(a) && IsNew(b) && AllPositive(a, b)
    ensures StandsFor(a, b, Product(a, b))
  {
  }

  // A new filter answers motion of zero, with motion of zero, only if it divides by a
  // negative number.
  lemma ZeroMotion(s: SM.State, axis: int)
    requires axis in {REL_X, REL_Y} && IsNew(s)
    ensures var zero := Event(EV_REL, axis, 0);
            SM.Step(s, zero).1 == if s.Mod(axis) < 0 then [zero] else []
  {
    DivisionLaw(0, s.Mod(axis));
  }

  lemma ZeroTellsSigns(a: SM.State, b: SM.State, axis: int)
    requires axis in {REL_X, REL_Y} && IsNew(a) && IsNew(b) && (a.Mod(axis) < 0 || b.Mod(axis) < 0)
    ensures var es := [Event(EV_REL, axis, 0)];
            Filter(NotSyn, Through(a, b, es)) != Filter(NotSyn, Direct(Product(a, b), es))
  {
    hide SM.Step;
    var c, zero := Product(a, b), Event(EV_REL, axis, 0);
    assert c.Mod(axis) == Times(a.Mod(axis), b.Mod(axis));
    ZeroMotion(a, axis);
    ZeroMotion(b, axis);
    ZeroMotion(c, axis);
    RunOne(SM.Step, a, zero);
    RunOne(SM.Step, b, zero);
    RunOne(SM.Step, c, zero);
    RunNothing(SM.Step, b);
    FilterOne(NotSyn, zero);
    FilterNothing(NotSyn);
  }

  // From allocation the pair emits the product filter's motion on every run exactly when
  // all divisors are positive.
  lemma MotionEqualIff(a: SM.State, b: SM.State)
    requires IsNew(a) && IsNew(b)
    ensures (forall es :: Filter(NotSyn, Through(a, b, es)) == Filter(NotSyn, Direct(Product(a, b), es)))
       <==> AllPositive(a, b)
  {
    hide SM.Step, Run, Filter;
    if AllPositive(a, b) {
      NewStandsFor(a, b);
      forall es ensures Filter(NotSyn, Through(a, b, es)) == Filter(NotSyn, Direct(Product(a, b), es)) {
        PairEmitsProductMotion(a, b, Product(a, b), es);
      }
    } else {
      ZeroTellsSigns(a, b, if a.xmod < 0 || b.xmod < 0 then REL_X else REL_Y);
    }
  }

  // And the same whole stream exactly when besides the second filter divides by one:
  // otherwise both filters can be waiting to swallow one EV_SYN.
  lemma StreamsEqualIff(a: SM.State, b: SM.State)
    requires IsNew(a) && IsNew(b)
    ensures (forall es :: Through(a, b, es) == Direct(Product(a, b), es))
       <==> AllPositive(a, b) && b.xmod == 1 && b.ymod == 1
  {
    hide SM.Step, Run, Filter;
    var c := Product(a, b);
    if !AllPositive(a, b) {
      MotionEqualIff(a, b);
    } else if b.xmod == 1 && b.ymod == 1 {
      NewStandsFor(a, b);
      forall es ensures Through(a, b, es) == Direct(c, es) {
        UnitSecondEqual(a, b, c, es);
      }
    } else {
      NewStandsFor(a, b);
      StreamsDiffer(a, b, c, if b.xmod > 1 then REL_X else REL_Y);
    }
  }

  lemma StreamsDiffer(a: SM.State, b: SM.State, c: SM.State, axis: int)
    requires axis in {REL_X, REL_Y} && StandsFor(a, b, c)
    requires a == SM.Init(a.xmod, a.ymod) && b == SM.Init(b.xmod, b.ymod) && c == SM.Init(c.xmod, c.ymod)
    requires b.Mod(axis) > 1
    ensures exists es :: Through(a, b, es) != Direct(c, es)
  {
    hide SM.Step, SM.Divide;
    var m := a.Mod(axis);
    var move, still, syn := Event(EV_REL, axis, m), Event(EV_REL, axis, 0), Event(EV_SYN, SYN_REPORT, 0);
    var es := [move, still, syn, syn];
    OnePasses(a, axis);
    BelowProduct(m, b.Mod(axis));
    NonePasses(c, axis, m);
    NoneOfOnePasses(b, axis);
    assert Run(SM.Step, a, es).1 == [Event(EV_REL, axis, 1), syn];
    assert Run(SM.Step, c, es).1 == [syn];
    assert Through(a, b, es) == [];
  }

  // The first filter lets the motion through, holds the zero motion back, and swallows
  // one of the two syncs.
  lemma OnePasses(a: SM.State, axis: int)
    requires axis in {REL_X, REL_Y} && a == SM.Init(a.xmod, a.ymod) && a.Mod(axis) >= 1
    ensures var syn := Event(EV_SYN, SYN_REPORT, 0);
            Run(SM.Step, a, [Event(EV_REL, axis, a.Mod(axis)), Event(EV_REL, axis, 0), syn, syn]).1
            == [Event(EV_REL, axis, 1), syn]
  {
    hide SM.Divide;
    var m, syn := a.Mod(axis), Event(EV_SYN, SYN_REPORT, 0);
    PositiveMotion(a, axis, m);
    PositiveMotion(SM.Step(a, Event(EV_REL, axis, m)).0, axis, 0);
    FourSteps(a, Event(EV_REL, axis, m), Event(EV_REL, axis, 0), syn, syn);
  }

  // The single filter holds both back, and swallows one sync as well.
  lemma NonePasses(c: SM.State, axis: int, m: int)
    requires axis in {REL_X, REL_Y} && c == SM.Init(c.xmod, c.ymod) && 1 <= m < c.Mod(axis)
    ensures var syn := Event(EV_SYN, SYN_REPORT, 0);
            Run(SM.Step, c, [Event(EV_REL, axis, m), Event(EV_REL, axis, 0), syn, syn]).1 == [syn]
  {
    hide SM.Divide;
    var syn := Event(EV_SYN, SYN_REPORT, 0);
    PositiveMotion(c, axis, m);
    PositiveMotion(SM.Step(c, Event(EV_REL, axis, m)).0, axis, 0);
    FourSteps(c, Event(EV_REL, axis, m), Event(EV_REL, axis, 0), syn, syn);
  }

  // The second filter holds the motion back and swallows the other sync.
  lemma NoneOfOnePasses(b: SM.State, axis: int)
    requires axis in {REL_X, REL_Y} && b == SM.Init(b.xmod, b.ymod) && b.Mod(axis) > 1
    ensures Run(SM.Step, b, [Event(EV_REL, axis, 1), Event(EV_SYN, SYN_REPORT, 0)]).1 == []
  {
    hide SM.Divide;
    PositiveMotion(b, axis, 1);
    TwoSteps(b, Event(EV_REL, axis, 1), Event(EV_SYN, SYN_REPORT, 0));
  }

  lemma BelowProduct(p: int, q: int)
    requires p >= 1 && q > 1
    ensures p < p * q
  {
    MulMonotone(p, 2, q);
  }

  // A non-negative sum below the divisor is withheld, and the divisor itself emits one.
  lemma PositiveMotion(s: SM.State, axis: int, v: int)
    requires axis in {REL_X, REL_Y} && s.Mod(axis) >= 1 && s.Rem(axis) >= 0 && v >= 0
    ensures var (s', out) := SM.Step(s, Event(EV_REL, axis, v));
            var acc := s.Rem(axis) + v;
            && (acc < s.Mod(axis) ==> out == [] && s'.eatNextSyn && s'.Rem(axis) == acc && s'.Mod(axis) == s.Mod(axis))
            && (acc == s.Mod(axis) ==> out == [Event(EV_REL, axis, 1)] && s'.eatNextSyn == s.eatNextSyn
                                       && s'.Rem(axis) == 0 && s'.Mod(axis) == s.Mod(axis))
  {
    hide TruncDiv, TruncMod;
    var m := s.Mod(axis);
    SM.DivideLaw(s.Rem(axis) + v, m);
    DivisionUnique(m, m, 1, 0);
    DivisionLaw(s.Rem(axis) + v, m);
  }

  lemma TwoSteps(s: SM.State, e1: Event, e2: Event)
    ensures var (s1, o1) := SM.Step(s, e1);
            var (s2, o2) := SM.Step(s1, e2);
            Run(SM.Step, s, [e1, e2]) == (s2, o1 + o2)
  {
    RunOne(SM.Step, s, e1);
    assert [e1, e2][..1] == [e1];
  }

  lemma FourSteps(s: SM.State, e1: Event, e2: Event, e3: Event, e4: Event)
    ensures var (s1, o1) := SM.Step(s, e1);
            var (s2, o2) := SM.Step(s1, e2);
            var (s3, o3) := SM.Step(s2, e3);
            var (s4, o4) := SM.Step(s3, e4);
            Run(SM.Step, s, [e1, e2, e3, e4]) == (s4, o1 + o2 + o3 + o4)
  {
    TwoSteps(s, e1, e2);
    var es := [e1, e2, e3, e4];
    assert es[..3] == [e1, e2, e3] && es[..3][..2] == [e1, e2];
  }
}
