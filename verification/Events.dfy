// Input events (struct input_event of the Linux input layer, without its time)
// and runs of a filter over a stream of them.
module Events {

  const EV_SYN := 0
  const EV_KEY := 1
  const EV_REL := 2
  const EV_ABS := 3

  const SYN_REPORT := 0
  const REL_X := 0
  const REL_Y := 1
  const REL_HWHEEL := 6
  const REL_WHEEL := 8
  const ABS_PRESSURE := 24

  datatype Event = Event(kind: int, code: int, value: int)

  predicate IsSyn(e: Event) {
    e.kind == EV_SYN
  }

  predicate NotSyn(e: Event) {
    !IsSyn(e)
  }

  predicate IsReport(e: Event) {
    e.kind == EV_SYN && e.code == SYN_REPORT
  }

  predicate IsRel(e: Event, code: int) {
    e.kind == EV_REL && e.code == code
  }

  predicate IsPressure(e: Event) {
    e.kind == EV_ABS && e.code == ABS_PRESSURE
  }

  // The zero sync some filters look for.
  predicate IsNull(e: Event) {
    e == Event(EV_SYN, SYN_REPORT, 0)
  }

  predicate IsKey(e: Event, key: int) {
    e.kind == EV_KEY && e.code == key
  }

  // The same by the numbers of linux/input.h.
  lemma KindsByNumber(e: Event)
    ensures IsSyn(e) <==> e.kind == 0
    ensures IsReport(e) <==> e.kind == 0 && e.code == 0
    ensures IsNull(e) <==> e.kind == 0 && e.code == 0 && e.value == 0
    ensures forall key :: IsKey(e, key) <==> e.kind == 1 && e.code == key
    ensures forall code :: IsRel(e, code) <==> e.kind == 2 && e.code == code
    ensures IsMotion(e) <==> e.kind == 2 && e.code in {0, 1}
    ensures IsPressure(e) <==> e.kind == 3 && e.code == 24
    ensures REL_HWHEEL == 6 && REL_WHEEL == 8
  {
  }

  // What an event lent to filters may have become when it comes back: syncs are as they
  // were, nothing has turned into a pressure event, and a pressure event is as it was or,
  // if the filters rewrite, no pressure event any more.
  predicate MayBecome(e: Event, back: Event, rewrites: bool) {
    && (IsSyn(e) ==> back == e)
    && (IsPressure(e) ==> back == e || (rewrites && !IsPressure(back)))
    && (!IsPressure(e) ==> !IsPressure(back))
  }

  // n key events that switch the key each time, starting from the given position.
  function Alternating(key: int, down: bool, n: nat): seq<Event> {
    seq(n, i requires 0 <= i < n => Event(EV_KEY, key, if (i % 2 == 0) == down then 0 else 1))
  }

  // Pointer motion along one of the two axes.
  predicate IsMotion(e: Event) {
    IsRel(e, REL_X) || IsRel(e, REL_Y)
  }

  // A filter seen from outside: what one event does to its state, and what it
  // hands to the next filter.
  type Transducer<!S> = (S, Event) -> (S, seq<Event>)

  // Feeding events one at a time; the outputs are concatenated.
  function Run<S>(step: Transducer<S>, s: S, es: seq<Event>): (S, seq<Event>)
    decreases |es|
  {
    if es == [] then (s, [])
    else
      var (s1, out1) := Run(step, s, es[..|es| - 1]);
      var (s2, out2) := step(s1, es[|es| - 1]);
      (s2, out1 + out2)
  }

  lemma {:induction false} RunAppend<S>(step: Transducer<S>, s: S, a: seq<Event>, b: seq<Event>)
    ensures var (s1, out1) := Run(step, s, a);
            var (s2, out2) := Run(step, s1, b);
            Run(step, s, a + b) == (s2, out1 + out2)
    decreases |b|
  {
    var (s1, out1) := Run(step, s, a);
    if b == [] {
      assert a + b == a && out1 + [] == out1;
    } else {
      var n := |b| - 1;
      RunAppend(step, s, a, b[..n]);
      assert (a + b)[..|a + b| - 1] == a + b[..n] && (a + b)[|a + b| - 1] == b[n];
      var (s2, out2) := Run(step, s1, b[..n]);
      var (s3, out3) := step(s2, b[n]);
      assert (out1 + out2) + out3 == out1 + (out2 + out3);
    }
  }

  lemma RunNothing<S>(step: Transducer<S>, s: S)
    ensures Run(step, s, []) == (s, [])
  {
  }

  lemma RunOne<S>(step: Transducer<S>, s: S, e: Event)
    ensures Run(step, s, [e]) == step(s, e)
  {
    assert [e][..0] == [];
    assert Run(step, s, []) == (s, []);
    var (s2, out2) := step(s, e);
    assert [] + out2 == out2;
  }

  // The state a filter is in just before event i, and what it does with it.
  function Before<S>(step: Transducer<S>, s: S, es: seq<Event>, i: nat): S
    requires i <= |es|
  {
    Run(step, s, es[..i]).0
  }

  lemma BeforeNext<S>(step: Transducer<S>, s: S, es: seq<Event>, i: nat)
    requires i < |es|
    ensures Before(step, s, es, i + 1) == step(Before(step, s, es, i), es[i]).0
  {
    assert es[..i + 1][..i] == es[..i];
  }

  function Emits<S>(step: Transducer<S>, s: S, es: seq<Event>, i: nat): seq<Event>
    requires i < |es|
  {
    step(Before(step, s, es, i), es[i]).1
  }

  // Event i is swallowed: nothing reaches the next filter while it is processed.
  predicate Swallowed<S>(step: Transducer<S>, s: S, es: seq<Event>, i: nat)
    requires i < |es|
  {
    Emits(step, s, es, i) == []
  }

  // The events satisfying p, in order.
  function Filter(p: Event -> bool, es: seq<Event>): seq<Event>
    decreases |es|
  {
    if es == [] then []
    else
      var n := |es| - 1;
      Filter(p, es[..n]) + if p(es[n]) then [es[n]] else []
  }

  lemma {:induction false} FilterAppend(p: Event -> bool, a: seq<Event>, b: seq<Event>)
    ensures Filter(p, a + b) == Filter(p, a) + Filter(p, b)
    decreases |b|
  {
    if b == [] {
      assert a + b == a;
    } else {
      var n := |b| - 1;
      assert (a + b)[..|a + b| - 1] == a + b[..n];
      FilterAppend(p, a, b[..n]);
    }
  }

  lemma FilterNothing(p: Event -> bool)
    ensures Filter(p, []) == []
  {
  }

  lemma FilterOne(p: Event -> bool, e: Event)
    ensures Filter(p, [e]) == if p(e) then [e] else []
  {
    assert [e][..0] == [];
  }

  // What one event, and a whole stream, move along an axis.
  function Motion(e: Event, code: int): int {
    if IsRel(e, code) then e.value else 0
  }

  function Sum(es: seq<Event>, code: int): int
    decreases |es|
  {
    if es == [] then 0
    else Sum(es[..|es| - 1], code) + Motion(es[|es| - 1], code)
  }

  lemma SumOne(e: Event, code: int)
    ensures Sum([e], code) == Motion(e, code)
  {
    assert [e][..0] == [];
  }

  lemma {:induction false} SumAppend(a: seq<Event>, b: seq<Event>, code: int)
    ensures Sum(a + b, code) == Sum(a, code) + Sum(b, code)
    decreases |b|
  {
    if b == [] {
      assert a + b == a;
    } else {
      var n := |b| - 1;
      assert (a + b)[..|a + b| - 1] == a + b[..n];
      SumAppend(a, b[..n], code);
    }
  }
}
