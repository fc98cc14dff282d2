// The chain in memory: struct evf_filter (src/evf_struct.h:38-60), the modify function
// of each filter, and the list operations of src/evf_filter.c.
module FilterHeap {
  import opened CArith
  import opened Events
  import opened Stages
  import opened Chain
  import SM = SpeedMod
  import RS = Rel2Scroll
  import BR = Barrier
  import PK = PressureToKey
  import FH = FilterToHandle
  import KL = KeyLock

  // struct input_event, passed by reference and rewritten in place.
  class Cell {
    var kind: int
    var code: int
    var value: int

    constructor (e: Event)
      ensures Value() == e
    {
      kind, code, value := e.kind, e.code, e.value;
    }

    function Value(): Event
      reads this
    {
      Event(kind, code, value)
    }

    method Copy(from: Cell)
      modifies this
      ensures Value() == old(from.Value())
    {
      kind, code, value := from.kind, from.code, from.value;
    }
  }

  // A filter's private data: a struct of numbers, or the barrier's index and capacity
  // beside its array of event slots.
  datatype Data = Plain(stage: Stage) | Queue(queueIndex: nat, queueSize: nat)

  class Filter {
    var data: Data
    var next: Filter?
    const queue: seq<Cell>

    constructor (stage: Stage)
      requires !stage.Barrier?
      ensures Ok() && State() == stage && next == null && queue == []
    {
      data, next, queue := Plain(stage), null, [];
    }

    constructor WithQueue(slots: seq<Cell>)
      requires forall i, j :: 0 <= i < j < |slots| ==> slots[i] != slots[j]
      ensures Ok() && State() == Barrier(BR.Init(|slots|)) && next == null && queue == slots
    {
      data, next, queue := Queue(0, |slots|), null, slots;
    }

    ghost predicate Ok()
      reads this
    {
      && (forall i, j :: 0 <= i < j < |queue| ==> queue[i] != queue[j])
      && match data
         case Plain(s) => !s.Barrier?
         case Queue(i, n) => i <= n == |queue|
    }

    // The events waiting in the queue, as they are now.
    function Held(): seq<Event>
      reads this, queue
    {
      if data.Queue? && data.queueIndex <= |queue| then Values(queue[..data.queueIndex]) else []
    }

    function State(): Stage
      reads this, queue
    {
      match data
      case Plain(s) => s
      case Queue(_, n) => Barrier(BR.State(n, Held()))
    }

    // Call self->next->modify: nothing of this filter changes.
    method HandOn(ev: Cell, ghost fs: seq<Filter>)
      requires Ready(fs) && fs[0] == this && |fs| > 1
      requires ev !in Slots(fs[1..])
      modifies fs[1..], Slots(fs[1..]), ev
      ensures Ready(fs) && data == old(data)
      ensures forall c :: c in queue && c != ev ==> c.Value() == old(c.Value())
      ensures States(fs[1..]) == old(Push(States(fs[1..]), ev.Value()).chain)
      ensures ev.Value() == old(Push(States(fs[1..]), ev.Value()).ev)
      decreases |fs|, 0
    {
      ReadyTail(fs);
      next.Modify(ev, fs[1..]);
      ReadyCons(fs);
    }

    // One event into this filter, the first of fs.
    method Modify(ev: Cell, ghost fs: seq<Filter>)
      requires Ready(fs) && fs[0] == this && ev !in Slots(fs)
      modifies fs, Slots(fs), ev
      ensures Ready(fs)
      ensures States(fs) == old(Push(States(fs), ev.Value()).chain)
      ensures ev.Value() == old(Push(States(fs), ev.Value()).ev)
      decreases |fs|, 3
    {
      match data
      case Queue(_, _) => ModifyBarrier(ev, fs);
      case Plain(s) =>
        match s
        case SpeedMod(_) => ModifySpeedMod(ev, fs);
        case Rel2Scroll(_) => ModifyRel2Scroll(ev, fs);
        case KeyLock(_) => ModifyKeyLock(ev, fs);
        case PressureToKey(_) => ModifyPressureToKey(ev, fs);
        case FilterToHandle(_) => ModifyFilterToHandle(ev, fs);
        case KeySubstitute(_, _) => ModifyKeySubstitute(ev, fs);
        case Commit(_) => ModifyCommit(ev, fs);
    }

    method ModifySpeedMod(ev: Cell, ghost fs: seq<Filter>)
      requires Ready(fs) && fs[0] == this && ev !in Slots(fs) && State().SpeedMod?
      modifies fs, Slots(fs), ev
      ensures Ready(fs)
      ensures States(fs) == old(Push(States(fs), ev.Value()).chain)
      ensures ev.Value() == old(Push(States(fs), ev.Value()).ev)
      decreases |fs|, 2
    {
      hide Push, PushAll, SM.Divide, States;
      StatesCons(fs);
      SlotsAllocated(fs[1..]);
      HasNext(fs);
      ghost var e, c := ev.Value(), States(fs);
      PushFirst(c, e);
      if ev.kind == EV_SYN && data.stage.speed.eatNextSyn {
        data := Plain(SpeedMod(data.stage.speed.(eatNextSyn := false)));
        StatesCons(fs);
        return;
      }
      if ev.kind == EV_REL {
        var withheld := SlowDown(ev);
        assert Step(c[0], e) == (data.stage, if withheld then [] else [ev.Value()]);
        if withheld {
          StatesCons(fs);
          return;
        }
      }
      StatesCons(fs);
      HandOn(ev, fs);
      StatesCons(fs);
    }

    // The switch of SpeedMod's modify: true if it returns without handing on.
    method SlowDown(ev: Cell) returns (withheld: bool)
      requires data.Plain? && data.stage.SpeedMod? && ev.kind == EV_REL
      modifies `data, ev
      ensures old(SM.Step(data.stage.speed, ev.Value()).1) == if withheld then [] else [ev.Value()]
      ensures withheld ==> ev.Value() == old(ev.Value())
      ensures data == Plain(SpeedMod(old(SM.Step(data.stage.speed, ev.Value()).0)))
    {
      hide TruncDiv, TruncMod;
      var s := data.stage.speed;
      if ev.code == REL_X {
        s := s.(x := s.x + ev.value);
        if Abs(s.x) >= s.xmod {
          ev.value := TruncDiv(s.x, s.xmod);
          s := s.(x := Sgn(s.x) * TruncMod(Abs(s.x), s.xmod));
        } else {
          data := Plain(SpeedMod(s.(eatNextSyn := true)));
          return true;
        }
      } else if ev.code == REL_Y {
        s := s.(y := s.y + ev.value);
        if Abs(s.y) >= s.ymod {
          ev.value := TruncDiv(s.y, s.ymod);
          s := s.(y := Sgn(s.y) * TruncMod(Abs(s.y), s.ymod));
        } else {
          data := Plain(SpeedMod(s.(eatNextSyn := true)));
          return true;
        }
      }
      data := Plain(SpeedMod(s));
      return false;
    }

    method ModifyRel2Scroll(ev: Cell, ghost fs: seq<Filter>)
      requires Ready(fs) && fs[0] == this && ev !in Slots(fs) && State().Rel2Scroll?
      modifies fs, Slots(fs), ev
      ensures Ready(fs)
      ensures States(fs) == old(Push(States(fs), ev.Value()).chain)
      ensures ev.Value() == old(Push(States(fs), ev.Value()).ev)
      decreases |fs|, 2
    {
      hide Push, PushAll, RS.Step, States;
      StatesCons(fs);
      SlotsAllocated(fs[1..]);
      HasNext(fs);
      PushFirst(States(fs), ev.Value());
      var withheld := Scroll(ev);
      StatesCons(fs);
      if withheld {
        return;
      }
      HandOn(ev, fs);
      StatesCons(fs);
    }

    // Rel2Scroll's modify up to handing on: true if it returns before.
    method Scroll(ev: Cell) returns (withheld: bool)
      requires data.Plain? && data.stage.Rel2Scroll?
      modifies `data, ev
      ensures old(RS.Step(data.stage.scroll, ev.Value()).1) == if withheld then [] else [ev.Value()]
      ensures withheld ==> ev.Value() == old(ev.Value())
      ensures data == Plain(Rel2Scroll(old(RS.Step(data.stage.scroll, ev.Value()).0)))
    {
      hide RS.Scale;
      var s := data.stage.scroll;
      if ev.kind == EV_SYN && s.eatNextSync {
        data := Plain(Rel2Scroll(s.(eatNextSync := false)));
        return true;
      }
      s := s.(eatNextSync := false);
      if ev.kind == EV_KEY && ev.code == s.trigger {
        s := s.(triggerOn := if ev.value == 0 then false else true);
        data := Plain(Rel2Scroll(s.(eatNextSync := true)));
        return true;
      }
      data := Plain(Rel2Scroll(s));
      if s.triggerOn {
        if ev.kind == EV_REL {
          withheld := TurnWheel(ev);
          return;
        }
      }
      return false;
    }

    // The switch of Rel2Scroll's modify: true if it returns without handing on.
    method TurnWheel(ev: Cell) returns (withheld: bool)
      requires data.Plain? && data.stage.Rel2Scroll? && ev.kind == EV_REL
      requires data.stage.scroll.triggerOn && !data.stage.scroll.eatNextSync
      modifies `data, ev
      ensures old(RS.Step(data.stage.scroll, ev.Value()).1) == if withheld then [] else [ev.Value()]
      ensures withheld ==> ev.Value() == old(ev.Value())
      ensures data == Plain(Rel2Scroll(old(RS.Step(data.stage.scroll, ev.Value()).0)))
    {
      hide TruncDiv, TruncMod;
      var s := data.stage.scroll;
      if ev.code == REL_X {
        s := s.(x := s.x + ev.value);
        if TruncDiv(s.x, s.xmod) != 0 {
          ev.value := TruncDiv(s.x, s.xmod);
          s := s.(x := TruncMod(s.x, s.xmod));
          ev.code := REL_HWHEEL;
        } else {
          data := Plain(Rel2Scroll(s.(eatNextSync := true)));
          return true;
        }
      } else if ev.code == REL_Y {
        s := s.(y := s.y + ev.value);
        if TruncDiv(s.y, s.ymod) != 0 {
          ev.value := TruncDiv(s.y, s.ymod);
          s := s.(y := TruncMod(s.y, s.ymod));
          ev.code := REL_WHEEL;
        } else {
          data := Plain(Rel2Scroll(s.(eatNextSync := true)));
          return true;
        }
      }
      data := Plain(Rel2Scroll(s));
      return false;
    }

    method ModifyKeyLock(ev: Cell, ghost fs: seq<Filter>)
      requires Ready(fs) && fs[0] == this && ev !in Slots(fs) && State().KeyLock?
      modifies fs, Slots(fs), ev
      ensures Ready(fs)
      ensures States(fs) == old(Push(States(fs), ev.Value()).chain)
      ensures ev.Value() == old(Push(States(fs), ev.Value()).ev)
      decreases |fs|, 2
    {
      hide Push, PushAll, KL.Step, States;
      StatesCons(fs);
      SlotsAllocated(fs[1..]);
      HasNext(fs);
      PushFirst(States(fs), ev.Value());
      var withheld := Toggle(ev);
      StatesCons(fs);
      if withheld {
        return;
      }
      HandOn(ev, fs);
      StatesCons(fs);
    }

    // KeyLock's modify up to handing on: true if it returns before.
    method Toggle(ev: Cell) returns (withheld: bool)
      requires data.Plain? && data.stage.KeyLock?
      modifies `data, ev
      ensures old(KL.Step(data.stage.lock, ev.Value()).1) == if withheld then [] else [ev.Value()]
      ensures withheld ==> ev.Value() == old(ev.Value())
      ensures data == Plain(KeyLock(old(KL.Step(data.stage.lock, ev.Value()).0)))
    {
      var s := data.stage.lock;
      if s.eatNextSync {
        s := s.(eatNextSync := false);
        if ev.kind == 0 && ev.code == 0 && ev.value == 0 {
          data := Plain(KeyLock(s));
          return true;
        }
      }
      if ev.kind == EV_KEY && ev.code == s.key {
        if ev.value == 0 {
          data := Plain(KeyLock(s.(eatNextSync := true)));
          return true;
        }
        if ev.value == 1 {
          if !s.locked {
            s := s.(locked := true);
          } else {
            s := s.(locked := false);
            ev.value := 0;
          }
        }
      }
      data := Plain(KeyLock(s));
      return false;
    }

    method ModifyPressureToKey(ev: Cell, ghost fs: seq<Filter>)
      requires Ready(fs) && fs[0] == this && ev !in Slots(fs) && State().PressureToKey?
      modifies fs, Slots(fs), ev
      ensures Ready(fs)
      ensures States(fs) == old(Push(States(fs), ev.Value()).chain)
      ensures ev.Value() == old(Push(States(fs), ev.Value()).ev)
      decreases |fs|, 2
    {
      hide Push, PushAll, States, PK.After;
      StatesCons(fs);
      HasNext(fs);
      PushPressure(States(fs), ev.Value());
      HandOn(ev, fs);
      PressKey(ev, fs);
      StatesCons(fs);
    }

    // What PressureToKey's modify does with the event once it has been handed on.
    method PressKey(ev: Cell, ghost fs: seq<Filter>)
      requires Ready(fs) && fs[0] == this && ev !in Slots(fs) && State().PressureToKey?
      modifies fs, Slots(fs), ev
      ensures Ready(fs)
      ensures State() == PressureToKey(old(PK.After(data.stage.pressure, ev.Value()).0))
      ensures var generated := old(PK.After(data.stage.pressure, ev.Value()).1);
              if generated == [] then ev.Value() == old(ev.Value()) && States(fs[1..]) == old(States(fs[1..]))
              else var r := Push(old(States(fs[1..])), generated[0]);
                   ev.Value() == r.ev && States(fs[1..]) == r.chain
      decreases |fs|, 1
    {
      hide Push, PushAll, States, PK.Over;
      HasNext(fs);
      SlotsAllocated(fs[1..]);
      var p := data.stage.pressure;
      if ev.kind == EV_ABS && ev.code == ABS_PRESSURE {
        if PK.Over(ev.value, p.treshold) {
          if !p.pressed {
            data := Plain(PressureToKey(p.(pressed := true)));
            ev.kind, ev.code, ev.value := EV_KEY, p.key, 1;
            HandOn(ev, fs);
          }
        } else {
          if p.pressed {
            data := Plain(PressureToKey(p.(pressed := false)));
            ev.kind, ev.code, ev.value := EV_KEY, p.key, 0;
            HandOn(ev, fs);
          }
        }
      }
    }

    method ModifyFilterToHandle(ev: Cell, ghost fs: seq<Filter>)
      requires Ready(fs) && fs[0] == this && ev !in Slots(fs) && State().FilterToHandle?
      modifies fs, Slots(fs), ev
      ensures Ready(fs)
      ensures States(fs) == old(Push(States(fs), ev.Value()).chain)
      ensures ev.Value() == old(Push(States(fs), ev.Value()).ev)
      decreases |fs|, 2
    {
      hide Push, PushAll, States;
      StatesCons(fs);
      SlotsAllocated(fs[1..]);
      HasNext(fs);
      PushHandle(States(fs), ev.Value());
      var s := data.stage.handle;
      if ev.kind == 0 && ev.code == 0 && ev.value == 0 && s.syncFlag {
        Send(ev);
        if s.evFlag == FH.Set(true) {
          HandOn(ev, fs);
        }
        StatesCons(fs);
        return;
      }
      if ev.kind == s.kind && ev.code == s.code {
        Send(ev);
        data := Plain(FilterToHandle(data.stage.handle.(syncFlag := true, evFlag := FH.Set(false))));
      } else {
        HandOn(ev, fs);
        data := Plain(FilterToHandle(s.(evFlag := FH.Set(true))));
      }
      StatesCons(fs);
    }

    // evf_handle_send: the event is lent to the filters behind the handle.
    method Send(ev: Cell)
      requires data.Plain? && data.stage.FilterToHandle?
      modifies `data, ev
      ensures data == Plain(FilterToHandle(old(data.stage.handle.(sent := data.stage.handle.sent + [ev.Value()]))))
      ensures ev.Value() == old(data.stage.handle.receiver.reply(|data.stage.handle.sent|, ev.Value()))
    {
      var s := data.stage.handle;
      var e := ev.Value();
      var back := s.receiver.reply(|s.sent|, e);
      data := Plain(FilterToHandle(s.(sent := s.sent + [e])));
      ev.kind, ev.code, ev.value := back.kind, back.code, back.value;
    }

    method ModifyKeySubstitute(ev: Cell, ghost fs: seq<Filter>)
      requires Ready(fs) && fs[0] == this && ev !in Slots(fs) && State().KeySubstitute?
      modifies fs, Slots(fs), ev
      ensures Ready(fs)
      ensures States(fs) == old(Push(States(fs), ev.Value()).chain)
      ensures ev.Value() == old(Push(States(fs), ev.Value()).ev)
      decreases |fs|, 2
    {
      hide Push, PushAll, TruncDiv, TruncMod;
      PushFirst(States(fs), ev.Value());
      if ev.kind == EV_KEY && ev.code == data.stage.keyFrom {
        ev.code := data.stage.keyTo;
      }
      HandOn(ev, fs);
    }

    method ModifyCommit(ev: Cell, ghost fs: seq<Filter>)
      requires Ready(fs) && fs[0] == this && ev !in Slots(fs) && State().Commit?
      modifies fs, Slots(fs), ev
      ensures Ready(fs)
      ensures States(fs) == old(Push(States(fs), ev.Value()).chain)
      ensures ev.Value() == old(Push(States(fs), ev.Value()).ev)
      decreases |fs|, 2
    {
      PushFirst(States(fs), ev.Value());
      data := Plain(Commit(data.stage.log + [ev.Value()]));
      if next != null {
        HandOn(ev, fs);
      }
    }

    // insert_queue: a full queue drops the event.
    method InsertQueue(ev: Cell)
      requires Ok() && data.Queue? && ev !in queue
      modifies this, queue
      ensures Ok() && next == old(next)
      ensures State() == Barrier(old(BR.State(data.queueSize,
                                   if |Held()| >= data.queueSize then Held() else Held() + [ev.Value()])))
    {
      if data.queueIndex >= data.queueSize {
        return;
      }
      ghost var i := data.queueIndex;
      queue[data.queueIndex].Copy(ev);
      data := data.(queueIndex := data.queueIndex + 1);
      assert queue[..i + 1][..i] == queue[..i];
      SameValues(queue[..i]);
    }

    // flush_queue: each slot is lent to the next filter, which may rewrite it.
    method FlushQueue(ghost fs: seq<Filter>)
      requires Ready(fs) && fs[0] == this && data.Queue?
      modifies fs, Slots(fs)
      ensures Ready(fs)
      ensures State() == Barrier(BR.Init(old(data.queueSize)))
      ensures States(fs[1..]) == old(PushAll(States(fs[1..]), Held(), NOTHING).chain)
      decreases |fs|, 1
    {
      hide Push, PushAll, States;
      ghost var held := Held();
      ghost var rest := States(fs[1..]);
      PushNone(rest);
      SlotsAllocated(fs);
      var i := 0;
      while i < data.queueIndex
        invariant Ready(fs) && data == old(data)
        invariant 0 <= i <= data.queueIndex
        invariant forall j :: i <= j < data.queueIndex ==> queue[j].Value() == held[j]
        invariant States(fs[1..]) == PushAll(rest, held[..i], NOTHING).chain
      {
        PushNext(rest, held, i);
        HandOn(queue[i], fs);
        i := i + 1;
      }
      assert held[..i] == held;
      data := data.(queueIndex := 0);
    }

    method ModifyBarrier(ev: Cell, ghost fs: seq<Filter>)
      requires Ready(fs) && fs[0] == this && ev !in Slots(fs) && data.Queue?
      modifies fs, Slots(fs), ev
      ensures Ready(fs)
      ensures States(fs) == old(Push(States(fs), ev.Value()).chain)
      ensures ev.Value() == old(Push(States(fs), ev.Value()).ev)
      decreases |fs|, 2
    {
      hide Push, PushAll, States;
      StatesCons(fs);
      ghost var e, c := ev.Value(), States(fs);
      PushBarrier(c, e);
      SlotsAllocated(fs[1..]);
      HasNext(fs);
      if ev.kind == EV_SYN && ev.code == SYN_REPORT {
        FlushQueue(fs);
        assert States(fs[1..]) == PushAll(c[1..], c[0].barrier.queue, NOTHING).chain;
        HandOn(ev, fs);
      } else {
        InsertQueue(ev);
        assert States(fs[1..]) == c[1..];
        assert State() == Barrier(BR.Step(c[0].barrier, e).0);
        ReadyCons(fs);
      }
      StatesCons(fs);
    }
  }

  lemma PushNone(c: seq<Stage>)
    ensures forall es: seq<Event> :: PushAll(c, es[..0], NOTHING).chain == c
  {
  }

  lemma PushNext(c: seq<Stage>, es: seq<Event>, i: nat)
    requires i < |es|
    ensures PushAll(c, es[..i + 1], NOTHING).chain == Push(PushAll(c, es[..i], NOTHING).chain, es[i]).chain
  {
    assert es[..i + 1][..i] == es[..i];
  }

  lemma PushBarrier(c: seq<Stage>, e: Event)
    requires c != [] && c[0].Barrier?
    ensures var b := c[0].barrier;
            var r := Push(c, e);
            if IsReport(e) then
              var last := Push(PushAll(c[1..], b.queue, NOTHING).chain, e);
              r.chain == [Barrier(BR.Init(b.size))] + last.chain && r.ev == last.ev
            else r.chain == [Barrier(BR.Step(b, e).0)] + c[1..] && r.ev == e
  {
    var q := c[0].barrier.queue;
    if IsReport(e) {
      assert (q + [e])[..|q|] == q;
      AnyStart(c[1..], q, e, NOTHING);
    }
  }

  lemma ReadyTail(fs: seq<Filter>)
    requires Ready(fs) && |fs| > 1
    ensures Ready(fs[1..]) && fs[0].next == fs[1]
  {
  }

  lemma ReadyCons(fs: seq<Filter>)
    requires |fs| > 1 && Ready(fs[1..]) && fs[0].Ok() && fs[0] !in fs[1..] && fs[0].next == fs[1]
    requires forall c :: c in fs[0].queue ==> c !in Slots(fs[1..])
    ensures Ready(fs)
  {
  }

  lemma PushPressure(c: seq<Stage>, e: Event)
    requires c != [] && c[0].PressureToKey?
    ensures var down := Push(c[1..], e);
            var (t, generated) := PK.After(c[0].pressure, down.ev);
            var last := Push(down.chain, if generated == [] then e else generated[0]);
            var r := Push(c, e);
            && |generated| <= 1
            && (generated == [] ==> r.chain == [PressureToKey(t)] + down.chain && r.ev == down.ev)
            && (generated != [] ==> r.chain == [PressureToKey(t)] + last.chain && r.ev == last.ev)
  {
    var down := Push(c[1..], e);
    var generated := PK.After(c[0].pressure, down.ev).1;
    if generated != [] {
      PushOne(down.chain, generated[0], down.ev);
    }
  }

  // What Push does at the first filter of a chain, when that hands on at most one event.
  lemma PushFirst(c: seq<Stage>, e: Event)
    requires c != [] && !c[0].PressureToKey? && !c[0].Barrier?
    ensures var (s, out) := Step(c[0], e);
            var r := Push(c, e);
            |out| <= 1 &&
            if out == [] then r.chain == [s] + c[1..] && r.ev == Lent(c[0], e)
            else r.chain == [s] + Push(c[1..], out[0]).chain && r.ev == Push(c[1..], out[0]).ev
  {
    var out := Step(c[0], e).1;
    if out != [] {
      assert out == [out[0]];
      PushOne(c[1..], out[0], Lent(c[0], e));
    }
  }

  // And at a FilterToHandle: what comes back from the handle is what is handed on.
  lemma PushHandle(c: seq<Stage>, e: Event)
    requires c != [] && c[0].FilterToHandle?
    ensures var s := c[0].handle;
            var told, back := s.(sent := s.sent + [e]), s.receiver.reply(|s.sent|, e);
            var r := Push(c, e);
            if IsNull(e) && s.syncFlag && s.evFlag == FH.Set(true) then
              r.chain == [FilterToHandle(told)] + Push(c[1..], back).chain && r.ev == Push(c[1..], back).ev
            else if IsNull(e) && s.syncFlag then r.chain == [FilterToHandle(told)] + c[1..] && r.ev == back
            else if s.Redirects(e) then
              r.chain == [FilterToHandle(told.(syncFlag := true, evFlag := FH.Set(false)))] + c[1..] && r.ev == back
            else
              && r.chain == [FilterToHandle(s.(evFlag := FH.Set(true)))] + Push(c[1..], e).chain
              && r.ev == Push(c[1..], e).ev
  {
    PushFirst(c, e);
    FH.ReturnedLaw(c[0].handle, e);
  }

  function Values(cells: seq<Cell>): (r: seq<Event>)
    reads cells
    ensures |r| == |cells| && forall i :: 0 <= i < |cells| ==> r[i] == cells[i].Value()
  {
    if cells == [] then [] else Values(cells[..|cells| - 1]) + [cells[|cells| - 1].Value()]
  }

  lemma SlotsAllocated(fs: seq<Filter>)
    ensures forall c :: c in Slots(fs) ==> allocated(c)
  {
    if fs != [] { SlotsAllocated(fs[1..]); }
  }

  lemma StatesCons(fs: seq<Filter>)
    requires fs != []
    ensures States(fs)[0] == fs[0].State() && States(fs)[1..] == States(fs[1..])
    ensures States(fs) == [fs[0].State()] + States(fs[1..])
  {
  }

  // All filters but a commit have a successor.
  lemma HasNext(fs: seq<Filter>)
    requires Ready(fs) && !fs[0].State().Commit?
    ensures |fs| > 1 && Ready(fs[1..]) && fs[0] !in fs[1..]
  {
  }

  twostate lemma SameValues(cells: seq<Cell>)
    requires forall c :: c in cells ==> old(c.Value()) == c.Value()
    ensures old(Values(cells)) == Values(cells)
  {
  }

  function Slots(fs: seq<Filter>): set<Cell> {
    if fs == [] then {} else (set c | c in fs[0].queue) + Slots(fs[1..])
  }

  function States(fs: seq<Filter>): (r: seq<Stage>)
    reads fs, Slots(fs)
    ensures |r| == |fs|
  {
    if fs == [] then [] else [fs[0].State()] + States(fs[1..])
  }

  // fs are the filters from its first on, linked through next up to a null, each with
  // its own slots; events never run past the end because the last one commits.
  ghost predicate Ready(fs: seq<Filter>)
    reads fs
    decreases |fs|
  {
    && fs != []
    && fs[0].Ok()
    && fs[0] !in fs[1..]
    && (forall c :: c in fs[0].queue ==> c !in Slots(fs[1..]))
    && if |fs| == 1 then fs[0].next == null && fs[0].data.Plain? && fs[0].data.stage.Commit?
       else fs[0].next == fs[1] && Ready(fs[1..])
  }
}
