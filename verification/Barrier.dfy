// src/filters/barrier.c: holds events back until SYN_REPORT, then lets the whole
// packet through. The queue is bounded: events that find it full are dropped.
module Barrier {
  import opened Events

  datatype State = State(size: nat, queue: seq<Event>)
  {
    predicate Valid() {
      |queue| <= size
    }
  }

  function Init(size: nat): State {
    State(size, [])
  }

  function Step(s: State, e: Event): (State, seq<Event>) {
    if IsReport(e) then (s.(queue := []), s.queue + [e])
    else if |s.queue| >= s.size then (s, [])
    else (s.(queue := s.queue + [e]), [])
  }

  // The events of a stream up to a SYN_REPORT, and that SYN_REPORT.
  datatype Packet = Packet(body: seq<Event>, report: Event)

  function Take(h: nat, es: seq<Event>): seq<Event> {
    if |es| <= h then es else es[..h]
  }

  function Min(m: nat, n: nat): nat {
    if m <= n then m else n
  }

  // The packet still open at the end of a stream, and the packets closed before it.
  function Open(es: seq<Event>): seq<Event>
    decreases |es|
  {
    if es == [] || IsReport(es[|es| - 1]) then []
    else Open(es[..|es| - 1]) + [es[|es| - 1]]
  }

  function Packets(es: seq<Event>): seq<Packet>
    decreases |es|
  {
    if es == [] then []
    else
      var init, e := es[..|es| - 1], es[|es| - 1];
      Packets(init) + if IsReport(e) then [Packet(Open(init), e)] else []
  }

  // What is left of packets when each body is cut to its first h events.
  function Clip(h: nat, p: Packet): seq<Event> {
    Take(h, p.body) + [p.report]
  }

  function Flatten(h: nat, ps: seq<Packet>): seq<Event>
    decreases |ps|
  {
    if ps == [] then [] else Flatten(h, ps[..|ps| - 1]) + Clip(h, ps[|ps| - 1])
  }

  lemma FlattenSnoc(h: nat, ps: seq<Packet>, p: Packet)
    ensures Flatten(h, ps + [p]) == Flatten(h, ps) + Clip(h, p)
  {
    hide Clip;
    assert (ps + [p])[..|ps|] == ps;
  }

  predicate Longer(ps: seq<Packet>, h: nat) {
    exists i :: 0 <= i < |ps| && |ps[i].body| > h
  }

  lemma {:induction false} FlattenAppend(h: nat, a: seq<Packet>, b: seq<Packet>)
    ensures Flatten(h, a + b) == Flatten(h, a) + Flatten(h, b)
    decreases |b|
  {
    hide Clip;
    if b == [] {
      assert a + b == a;
    } else {
      var n := |b| - 1;
      FlattenAppend(h, a, b[..n]);
      assert (a + b)[..|a + b| - 1] == a + b[..n] && (a + b)[|a + b| - 1] == b[n];
      var fa, fb, last := Flatten(h, a), Flatten(h, b[..n]), Clip(h, b[n]);
      assert (fa + fb) + last == fa + (fb + last);
    }
  }

  // Packets and open remainder are exactly the stream, cut at its SYN_REPORTs.
  lemma {:induction false} PacketsPartition(es: seq<Event>)
    ensures Flatten(|es|, Packets(es)) + Open(es) == es
    ensures !Longer(Packets(es), |es|) && |Open(es)| <= |es|
    ensures forall e :: e in Open(es) ==> !IsReport(e)
    ensures forall p :: p in Packets(es) ==> IsReport(p.report) && forall e :: e in p.body ==> !IsReport(e)
    decreases |es|
  {
    hide Flatten;
    if es == [] {
      FlattenNothing(0);
    } else {
      var init, e := es[..|es| - 1], es[|es| - 1];
      PacketsPartition(init);
      WideEnough(Packets(init), |init|, |es|);
      assert es == init + [e];
      var f := Flatten(|es|, Packets(init));
      if IsReport(e) {
        FlattenSnoc(|es|, Packets(init), Packet(Open(init), e));
        assert f + (Open(init) + [e]) == (f + Open(init)) + [e];
      } else {
        assert Packets(es) == Packets(init);
        assert f + (Open(init) + [e]) == (f + Open(init)) + [e];
      }
    }
  }

  lemma FlattenNothing(h: nat)
    ensures Flatten(h, []) == []
  {
  }

  lemma {:induction false} WideEnough(ps: seq<Packet>, h: nat, k: nat)
    requires h <= k && !Longer(ps, h)
    ensures Flatten(h, ps) == Flatten(k, ps)
    decreases |ps|
  {
    if ps != [] {
      assert |ps[|ps| - 1].body| <= h;
      assert !Longer(ps[..|ps| - 1], h) by {
        assert forall i :: 0 <= i < |ps| - 1 ==> ps[..|ps| - 1][i] == ps[i];
      }
      WideEnough(ps[..|ps| - 1], h, k);
    }
  }

  // Packets once closed stay closed.
  lemma {:induction false} PacketsGrow(a: seq<Event>, b: seq<Event>)
    ensures Packets(a) <= Packets(a + b)
    decreases |b|
  {
    if b == [] {
      assert a + b == a;
    } else {
      var n := |b| - 1;
      PacketsGrow(a, b[..n]);
      assert (a + b)[..|a + b| - 1] == a + b[..n];
    }
  }

  // Refinement: after any run the barrier has let through each closed packet, cut to
  // its first `size` events and ended by its SYN_REPORT, and holds the first `size`
  // events of the open one.
  lemma {:induction false} Refines(size: nat, es: seq<Event>)
    ensures Run(Step, Init(size), es) == (State(size, Take(size, Open(es))), Flatten(size, Packets(es)))
    decreases |es|
  {
    hide Flatten, Take;
    if es == [] {
      FlattenNothing(size);
      assert Take(size, []) == [] by { TakeLaw(size, []); }
    } else {
      var init, e := es[..|es| - 1], es[|es| - 1];
      Refines(size, init);
      TakeLaw(size, Open(init));
      TakeLaw(size, []);
      if IsReport(e) {
        FlattenSnoc(size, Packets(init), Packet(Open(init), e));
      } else {
        TakeLaw(size, Open(init) + [e]);
        assert |Open(init)| >= size ==> (Open(init) + [e])[..size] == Open(init)[..size];
        assert Packets(es) == Packets(init);
        assert Flatten(size, Packets(init)) + [] == Flatten(size, Packets(init));
      }
    }
  }

  lemma TakeLaw(h: nat, es: seq<Event>)
    ensures Take(h, es) == if |es| <= h then es else es[..h]
  {
  }

  // A stream made of whole packets loses nothing exactly when no packet is longer
  // than the queue.
  lemma LosslessIff(size: nat, es: seq<Event>)
    requires Open(es) == []
    ensures Run(Step, Init(size), es).1 == es <==> !Longer(Packets(es), size)
  {
    Refines(size, es);
    PacketsPartition(es);
    var ps := Packets(es);
    if Longer(ps, size) {
      FlattenShrinks(ps, size, |es|);
    } else if size <= |es| {
      WideEnough(ps, size, |es|);
    } else {
      WideEnough(ps, |es|, size);
    }
  }

  lemma {:induction false} FlattenShrinks(ps: seq<Packet>, h: nat, k: nat)
    requires !Longer(ps, k)
    ensures |Flatten(h, ps)| <= |Flatten(k, ps)|
    ensures Longer(ps, h) ==> |Flatten(h, ps)| < |Flatten(k, ps)|
    decreases |ps|
  {
    if ps != [] {
      var init := ps[..|ps| - 1];
      assert forall i :: 0 <= i < |ps| - 1 ==> init[i] == ps[i];
      assert |ps[|ps| - 1].body| <= k;
      assert !Longer(init, k);
      FlattenShrinks(init, h, k);
      if Longer(ps, h) && |ps[|ps| - 1].body| <= h {
        var i :| 0 <= i < |ps| && |ps[i].body| > h;
        assert |init[i].body| > h;
      }
    }
  }

  lemma {:induction false} OpenPlain(es: seq<Event>)
    requires forall e :: e in es ==> !IsReport(e)
    ensures Open(es) == es && Packets(es) == []
    decreases |es|
  {
    if es != [] {
      OpenPlain(es[..|es| - 1]);
    }
  }

  // A packet that arrives at an empty barrier leaves it cut and at once.
  lemma OnePacket(size: nat, body: seq<Event>, report: Event)
    requires IsReport(report) && forall e :: e in body ==> !IsReport(e)
    ensures Run(Step, Init(size), body + [report]) == (Init(size), Take(size, body) + [report])
  {
    var es := body + [report];
    OpenPlain(body);
    Refines(size, es);
    assert es[..|es| - 1] == body;
    assert Packets(es) == [Packet(body, report)];
    assert Flatten(size, [Packet(body, report)]) == Take(size, body) + [report] by {
      assert [Packet(body, report)][..0] == [];
    }
  }

  // Two barriers in a row are the smaller of the two, on every run.
  lemma TwoBarriers(m: nat, n: nat, es: seq<Event>)
    ensures Run(Step, Init(n), Run(Step, Init(m), es).1) == (Init(n), Run(Step, Init(Min(m, n)), es).1)
  {
    Refines(m, es);
    Refines(Min(m, n), es);
    PacketsPartition(es);
    FlattenTwice(m, n, Packets(es));
  }

  lemma {:induction false} FlattenTwice(m: nat, n: nat, ps: seq<Packet>)
    requires forall p :: p in ps ==> IsReport(p.report) && forall e :: e in p.body ==> !IsReport(e)
    ensures Run(Step, Init(n), Flatten(m, ps)) == (Init(n), Flatten(Min(m, n), ps))
    decreases |ps|
  {
    hide Step, Clip, Run;
    if ps == [] {
      RunNothing(Step, Init(n));
    } else {
      var init, p := ps[..|ps| - 1], ps[|ps| - 1];
      FlattenTwice(m, n, init);
      ClipTwice(m, n, p);
      RunAppend(Step, Init(n), Flatten(m, init), Clip(m, p));
    }
  }

  lemma ClipTwice(m: nat, n: nat, p: Packet)
    requires IsReport(p.report) && forall e :: e in p.body ==> !IsReport(e)
    ensures Run(Step, Init(n), Clip(m, p)) == (Init(n), Clip(Min(m, n), p))
  {
    OnePacket(n, Take(m, p.body), p.report);
    assert Take(n, Take(m, p.body)) == Take(Min(m, n), p.body);
  }
}
