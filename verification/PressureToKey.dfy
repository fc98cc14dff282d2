// src/filters/pressure_to_key.c: adds a key press or release to the stream when the
// pen pressure crosses a threshold. Here each event is taken to come back unchanged
// from the next filter; what happens when it does not is in module Chain.
module PressureToKey {
  import opened CArith
  import opened Events

  datatype State = State(treshold: int, key: int, pressed: bool)

  function Init(treshold: int, key: int): State {
    State(treshold, key, false)
  }

  // check_treshold
  function Over(value: int, treshold: int): bool {
    if treshold < 0 then value != 0 && value < Abs(treshold) else value > treshold
  }

  // The part of modify that runs once the event has been handed on.
  function After(s: State, e: Event): (State, seq<Event>) {
    if IsPressure(e) && Over(e.value, s.treshold) != s.pressed
    then (s.(pressed := !s.pressed), [Event(EV_KEY, s.key, if s.pressed then 0 else 1)])
    else (s, [])
  }

  function Step(s: State, e: Event): (State, seq<Event>) {
    var (s', generated) := After(s, e);
    (s', [e] + generated)
  }

  // Is the pen down after these events? Only the last pressure tells.
  function Down(treshold: int, es: seq<Event>): bool
    decreases |es|
  {
    if es == [] then false
    else if IsPressure(es[|es| - 1]) then Over(es[|es| - 1].value, treshold)
    else Down(treshold, es[..|es| - 1])
  }

  // The stream with, after each event that moves the pen, the key event it causes;
  // added events are marked.
  function Marked(treshold: int, key: int, es: seq<Event>): seq<(bool, Event)>
    decreases |es|
  {
    if es == [] then []
    else
      var init, e := es[..|es| - 1], es[|es| - 1];
      Marked(treshold, key, init) + [(false, e)]
      + if Down(treshold, es) == Down(treshold, init) then []
        else [(true, Event(EV_KEY, key, if Down(treshold, es) then 1 else 0))]
  }

  function Unmark(ms: seq<(bool, Event)>): seq<Event> {
    seq(|ms|, i requires 0 <= i < |ms| => ms[i].1)
  }

  // The events with a given mark.
  function Select(mark: bool, ms: seq<(bool, Event)>): seq<Event>
    decreases |ms|
  {
    if ms == [] then []
    else Select(mark, ms[..|ms| - 1]) + if ms[|ms| - 1].0 == mark then [ms[|ms| - 1].1] else []
  }

  lemma SelectSnoc(mark: bool, ms: seq<(bool, Event)>, m: (bool, Event))
    ensures Select(mark, ms + [m]) == Select(mark, ms) + if m.0 == mark then [m.1] else []
  {
    assert (ms + [m])[..|ms|] == ms;
  }

  lemma SelectNothing()
    ensures Select(true, []) == [] && Select(false, []) == []
  {
  }

  // Over any run the key state is the threshold test of the last pressure, and the
  // output is the input with exactly the marked key events added.
  lemma {:induction false} OutputIsMarked(treshold: int, key: int, es: seq<Event>)
    ensures Run(Step, Init(treshold, key), es)
         == (State(treshold, key, Down(treshold, es)), Unmark(Marked(treshold, key, es)))
    decreases |es|
  {
    if es == [] {
      assert Unmark([]) == [];
    } else {
      var init, e := es[..|es| - 1], es[|es| - 1];
      OutputIsMarked(treshold, key, init);
      var before := Marked(treshold, key, init);
      assert Unmark(before + [(false, e)]) == Unmark(before) + [e];
      assert Run(Step, Init(treshold, key), es).1 == Unmark(before) + Step(Run(Step, Init(treshold, key), init).0, e).1;
      if Down(treshold, es) == Down(treshold, init) {
        assert Marked(treshold, key, es) == before + [(false, e)];
        assert [e] + [] == [e];
      } else {
        var press := Event(EV_KEY, key, if Down(treshold, es) then 1 else 0);
        assert Unmark(before + [(false, e)] + [(true, press)]) == Unmark(before) + ([e] + [press]);
      }
    }
  }

  // Deleting the added events gives back the input; the added ones alternate between
  // press and release, starting with a press.
  lemma {:induction false} MarkedSplits(treshold: int, key: int, es: seq<Event>)
    ensures var ms := Marked(treshold, key, es);
            var added := Select(true, ms);
            && Select(false, ms) == es
            && added == Alternating(key, false, |added|)
            && (forall i :: 0 <= i < |added| ==> added[i] == Event(EV_KEY, key, if i % 2 == 0 then 1 else 0))
            && Down(treshold, es) == (|added| % 2 == 1)
    decreases |es|
  {
    hide Select, Over;
    SelectNothing();
    if es != [] {
      var init, e := es[..|es| - 1], es[|es| - 1];
      MarkedSplits(treshold, key, init);
      var before := Marked(treshold, key, init);
      var n := |Select(true, before)|;
      SelectSnoc(false, before, (false, e));
      SelectSnoc(true, before, (false, e));
      assert es == init + [e];
      if Down(treshold, es) == Down(treshold, init) {
        assert Marked(treshold, key, es) == before + [(false, e)];
      } else {
        var press := Event(EV_KEY, key, if Down(treshold, es) then 1 else 0);
        SelectSnoc(false, before + [(false, e)], (true, press));
        SelectSnoc(true, before + [(false, e)], (true, press));
        assert Alternating(key, false, n + 1) == Alternating(key, false, n) + [press];
      }
    }
  }

  predicate LastPressure(es: seq<Event>, n: nat) {
    n < |es| && IsPressure(es[n]) && forall j :: n < j < |es| ==> !IsPressure(es[j])
  }

  // The test of the last pressure: above a threshold that is not negative, and below the
  // size of a negative one but not zero. Before any pressure the pen is up.
  lemma {:induction false} DownMeans(treshold: int, es: seq<Event>)
    ensures (forall j :: 0 <= j < |es| ==> !IsPressure(es[j])) ==> !Down(treshold, es)
    ensures forall n: nat :: LastPressure(es, n) ==>
              (Down(treshold, es) <==> if treshold >= 0 then es[n].value > treshold
                                       else es[n].value != 0 && es[n].value < -treshold)
    decreases |es|
  {
    if es != [] && !IsPressure(es[|es| - 1]) {
      var init := es[..|es| - 1];
      DownMeans(treshold, init);
      assert forall n: nat :: LastPressure(es, n) ==> LastPressure(init, n);
    }
  }

  // So is the key, over any run.
  lemma PressedIff(treshold: int, key: int, es: seq<Event>, n: nat)
    requires LastPressure(es, n)
    ensures Run(Step, Init(treshold, key), es).0.pressed
       <==> if treshold >= 0 then es[n].value > treshold else es[n].value != 0 && es[n].value < -treshold
  {
    OutputIsMarked(treshold, key, es);
    DownMeans(treshold, es);
  }

  lemma UpWithoutPressure(treshold: int, key: int, es: seq<Event>)
    requires forall j :: 0 <= j < |es| ==> !IsPressure(es[j])
    ensures Run(Step, Init(treshold, key), es) == (Init(treshold, key), es)
  {
    OutputIsMarked(treshold, key, es);
    PlainUnmarked(treshold, key, es);
  }

  lemma {:induction false} PlainUnmarked(treshold: int, key: int, es: seq<Event>)
    requires forall j :: 0 <= j < |es| ==> !IsPressure(es[j])
    ensures !Down(treshold, es) && Unmark(Marked(treshold, key, es)) == es
    decreases |es|
  {
    if es != [] {
      var init := es[..|es| - 1];
      PlainUnmarked(treshold, key, init);
      assert es == init + [es[|es| - 1]];
    }
  }

  // A pen pressed ever harder, from allocation on, gives one press, right after the first
  // pressure above the threshold.
  lemma {:induction false} OnePress(treshold: nat, key: int, es: seq<Event>, k: nat)
    requires forall i :: 0 <= i < |es| ==> IsPressure(es[i])
    requires forall i, j :: 0 <= i < j < |es| ==> es[i].value <= es[j].value
    requires k < |es| && es[k].value > treshold && forall i :: 0 <= i < k ==> es[i].value <= treshold
    ensures Run(Step, Init(treshold, key), es)
         == (State(treshold, key, true), es[..k + 1] + [Event(EV_KEY, key, 1)] + es[k + 1..])
    decreases |es|
  {
    hide Step, Over;
    var n, press := |es| - 1, Event(EV_KEY, key, 1);
    var init, e := es[..n], es[n];
    StepAbove(treshold, key, e);
    if n == k {
      NoPress(treshold, key, init);
      assert init + [e, press] == es[..k + 1] + [press] + es[k + 1..];
    } else {
      OnePress(treshold, key, init, k);
      assert init[..k + 1] == es[..k + 1] && init[k + 1..] + [e] == es[k + 1..];
      var front := es[..k + 1] + [press];
      assert (front + init[k + 1..]) + [e] == front + es[k + 1..];
    }
  }

  lemma StepAbove(treshold: nat, key: int, e: Event)
    requires IsPressure(e) && e.value > treshold
    ensures Step(Init(treshold, key), e) == (State(treshold, key, true), [e, Event(EV_KEY, key, 1)])
    ensures Step(State(treshold, key, true), e) == (State(treshold, key, true), [e])
  {
    assert [e] + [] == [e] && [e] + [Event(EV_KEY, key, 1)] == [e, Event(EV_KEY, key, 1)];
    assert Over(e.value, treshold);
  }

  lemma {:induction false} NoPress(treshold: nat, key: int, es: seq<Event>)
    requires forall i :: 0 <= i < |es| ==> es[i].value <= treshold
    ensures Run(Step, Init(treshold, key), es) == (Init(treshold, key), es)
    decreases |es|
  {
    if es != [] {
      var init := es[..|es| - 1];
      NoPress(treshold, key, init);
      assert es == init + [es[|es| - 1]] && [es[|es| - 1]] + [] == [es[|es| - 1]];
    }
  }
}
