// src/filters/key_lock.c: every press of a key toggles it, releases are dropped.
module KeyLock {
  import opened Events

  datatype State = State(key: int, locked: bool, eatNextSync: bool)

  function Init(key: int): State {
    State(key, false, false)
  }

  function Step(s: State, e: Event): (State, seq<Event>) {
    if s.eatNextSync && IsNull(e) then (s.(eatNextSync := false), [])
    else
      var s := s.(eatNextSync := false);
      if !IsKey(e, s.key) then (s, [e])
      else if e.value == 0 then (s.(eatNextSync := true), [])
      else if e.value == 1 then (s.(locked := !s.locked), [e.(value := if s.locked then 0 else 1)])
      else (s, [e])
  }

  predicate IsEdge(e: Event, key: int) {
    IsKey(e, key) && e.value in {0, 1}
  }

  function Edge(key: int): Event -> bool {
    (e: Event) => IsEdge(e, key)
  }

  function Other(key: int): Event -> bool {
    (e: Event) => !IsEdge(e, key) && !IsNull(e)
  }

  // Presses of the key in a stream.
  function Presses(key: int, es: seq<Event>): nat
    decreases |es|
  {
    if es == [] then 0
    else Presses(key, es[..|es| - 1]) + if es[|es| - 1] == Event(EV_KEY, key, 1) then 1 else 0
  }

  lemma StepLaw(s: State, e: Event)
    ensures var (s', out) := Step(s, e);
            var press := e == Event(EV_KEY, s.key, 1);
            && s'.key == s.key && s'.locked == (s.locked != press)
            && Filter(Edge(s.key), out) == (if press then Alternating(s.key, s.locked, 1) else [])
            && Filter(Other(s.key), out) == Filter(Other(s.key), [e])
            && (out == [] <==> e == Event(EV_KEY, s.key, 0) || (IsNull(e) && s.eatNextSync))
            && s'.eatNextSync == (e == Event(EV_KEY, s.key, 0))
  {
    var out := Step(s, e).1;
    FilterOne(Other(s.key), e);
    if out != [] {
      FilterOne(Edge(s.key), out[0]);
      FilterOne(Other(s.key), out[0]);
    }
  }

  // Over any run the presses and releases let through alternate strictly, one for each
  // press received, and the lock holds the parity of the presses.
  lemma {:induction false} EdgesAlternate(s: State, es: seq<Event>)
    ensures var (s', out) := Run(Step, s, es);
            var n := Presses(s.key, es);
            && s'.key == s.key && s'.locked == (s.locked != (n % 2 == 1))
            && Filter(Edge(s.key), out) == Alternating(s.key, s.locked, n)
    decreases |es|
  {
    hide Step;
    if es != [] {
      var init, e := es[..|es| - 1], es[|es| - 1];
      EdgesAlternate(s, init);
      var (s1, out1) := Run(Step, s, init);
      StepLaw(s1, e);
      FilterAppend(Edge(s.key), out1, Step(s1, e).1);
      var n := Presses(s.key, init);
      assert Alternating(s.key, s.locked, n + 1)
          == Alternating(s.key, s.locked, n) + Alternating(s.key, s1.locked, 1);
    }
  }

  // Every other event passes unchanged and in order, zero syncs aside.
  lemma {:induction false} OthersPass(s: State, es: seq<Event>)
    ensures Filter(Other(s.key), Run(Step, s, es).1) == Filter(Other(s.key), es)
    ensures Run(Step, s, es).0.key == s.key
    decreases |es|
  {
    hide Step;
    if es != [] {
      var init, e := es[..|es| - 1], es[|es| - 1];
      OthersPass(s, init);
      var (s1, out1) := Run(Step, s, init);
      StepLaw(s1, e);
      FilterAppend(Other(s.key), out1, Step(s1, e).1);
      FilterAppend(Other(s.key), init, [e]);
      assert es == init + [e];
    }
  }

  // A zero sync is swallowed exactly when a release of the key came right before it;
  // nothing else is swallowed but those releases.
  lemma SwallowedIff(s: State, es: seq<Event>, i: nat)
    requires !s.eatNextSync && i < |es|
    ensures Swallowed(Step, s, es, i)
       <==> es[i] == Event(EV_KEY, s.key, 0)
            || (IsNull(es[i]) && i > 0 && es[i - 1] == Event(EV_KEY, s.key, 0))
  {
    hide Step;
    OthersPass(s, es[..i]);
    StepLaw(Before(Step, s, es, i), es[i]);
    if i == 0 {
      assert es[..0] == [];
    } else {
      OthersPass(s, es[..i - 1]);
      BeforeNext(Step, s, es, i - 1);
      StepLaw(Before(Step, s, es, i - 1), es[i - 1]);
    }
  }

  // From allocation the first edge let through is a press, then a release, and so on.
  lemma StartsWithPress(key: int, es: seq<Event>)
    ensures var (s, out) := Run(Step, Init(key), es);
            var edges := Filter(Edge(key), out);
            && |edges| == Presses(key, es) && s.locked == (|edges| % 2 == 1)
            && forall i :: 0 <= i < |edges| ==> edges[i] == Event(EV_KEY, key, if i % 2 == 0 then 1 else 0)
  {
    EdgesAlternate(Init(key), es);
  }

  // Without the key nothing happens, from the first event on.
  lemma {:induction false} IdleWithoutKey(key: int, es: seq<Event>)
    requires forall e :: e in es ==> !IsKey(e, key)
    ensures Run(Step, Init(key), es) == (Init(key), es)
    decreases |es|
  {
    if es != [] {
      var init, e := es[..|es| - 1], es[|es| - 1];
      IdleWithoutKey(key, init);
      assert es == init + [e] && e in es;
    }
  }
}
