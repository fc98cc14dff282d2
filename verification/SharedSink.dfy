// Several device lines committing into one sink (src/evf_line.c:99-181): each line is
// some front filters followed by its own Barrier. Events are processed one at a time,
// in whatever order the devices deliver them.
module SharedSink {
  import opened Events
  import Barrier

  datatype Line<S> = Line(front: S, barrier: Barrier.State)

  // One event through the front of a line and then through its barrier.
  function LineStep<S>(front: Transducer<S>, l: Line<S>, e: Event): (Line<S>, seq<Event>) {
    var (s, mid) := front(l.front, e);
    var (b, out) := Run(Barrier.Step, l.barrier, mid);
    (Line(s, b), out)
  }

  // An event together with the device it came from.
  type Tagged = (nat, Event)

  function Tag(d: nat, es: seq<Event>): seq<Tagged> {
    seq(|es|, i requires 0 <= i < |es| => (d, es[i]))
  }

  function Project(d: nat, ts: seq<Tagged>): seq<Event>
    decreases |ts|
  {
    if ts == [] then []
    else Project(d, ts[..|ts| - 1]) + if ts[|ts| - 1].0 == d then [ts[|ts| - 1].1] else []
  }

  predicate FromDevices(input: seq<Tagged>, n: nat) {
    forall i :: 0 <= i < |input| ==> input[i].0 < n
  }

  // All lines, and what the shared sink has received.
  function RunAll<S>(front: Transducer<S>, lines: seq<Line<S>>, input: seq<Tagged>): (r: (seq<Line<S>>, seq<Tagged>))
    requires FromDevices(input, |lines|)
    ensures |r.0| == |lines|
    decreases |input|
  {
    if input == [] then (lines, [])
    else
      var (now, log) := RunAll(front, lines, input[..|input| - 1]);
      var (d, e) := input[|input| - 1];
      var (l, out) := LineStep(front, now[d], e);
      (now[d := l], log + Tag(d, out))
  }

  // The stream one device's front hands to its barrier, over a whole input.
  function FrontStream<S>(front: Transducer<S>, lines: seq<Line<S>>, input: seq<Tagged>, d: nat): seq<Event>
    requires d < |lines|
  {
    Run(front, lines[d].front, Project(d, input)).1
  }

  // The packets of all devices, in the order their SYN_REPORTs reach the barriers:
  // each event of a device adds the packets it closes in that device's own stream.
  function Packets<S>(front: Transducer<S>, lines: seq<Line<S>>, input: seq<Tagged>): seq<(nat, Barrier.Packet)>
    requires FromDevices(input, |lines|)
    decreases |input|
  {
    if input == [] then []
    else
      var init, d := input[..|input| - 1], input[|input| - 1].0;
      Packets(front, lines, init) + TagPackets(d, NewPackets(front, lines, input, d))
  }

  // The packets of device d that the last event of the input closes.
  function NewPackets<S>(front: Transducer<S>, lines: seq<Line<S>>, input: seq<Tagged>, d: nat): seq<Barrier.Packet>
    requires input != [] && d < |lines|
  {
    var earlier := Barrier.Packets(FrontStream(front, lines, input[..|input| - 1], d));
    var all := Barrier.Packets(FrontStream(front, lines, input, d));
    if |earlier| <= |all| then all[|earlier|..] else []
  }

  function TagPackets(d: nat, ps: seq<Barrier.Packet>): seq<(nat, Barrier.Packet)> {
    seq(|ps|, i requires 0 <= i < |ps| => (d, ps[i]))
  }

  function ProjectPackets(d: nat, ps: seq<(nat, Barrier.Packet)>): seq<Barrier.Packet>
    decreases |ps|
  {
    if ps == [] then []
    else ProjectPackets(d, ps[..|ps| - 1]) + if ps[|ps| - 1].0 == d then [ps[|ps| - 1].1] else []
  }

  // Whole packets back to back, each cut to the queue size of its device's barrier.
  function Sink<S>(lines: seq<Line<S>>, ps: seq<(nat, Barrier.Packet)>): seq<Tagged>
    decreases |ps|
  {
    if ps == [] then []
    else
      var (d, p) := ps[|ps| - 1];
      var size := if d < |lines| then lines[d].barrier.size else 0;
      Sink(lines, ps[..|ps| - 1]) + Tag(d, Barrier.Clip(size, p))
  }

  predicate Empty<S>(lines: seq<Line<S>>) {
    forall i :: 0 <= i < |lines| ==> lines[i].barrier == Barrier.Init(lines[i].barrier.size)
  }

  // A line as one filter.
  function Whole<S>(front: Transducer<S>): Transducer<Line<S>> {
    (l: Line<S>, e: Event) => LineStep(front, l, e)
  }

  // A line is its front followed by its barrier, stream for stream.
  lemma {:induction false} LineIsComposition<S>(front: Transducer<S>, l: Line<S>, es: seq<Event>)
    ensures var (s, mid) := Run(front, l.front, es);
            var (b, out) := Run(Barrier.Step, l.barrier, mid);
            Run(Whole(front), l, es) == (Line(s, b), out)
    decreases |es|
  {
    hide Barrier.Step;
    if es != [] {
      var init, e := es[..|es| - 1], es[|es| - 1];
      LineIsComposition(front, l, init);
      var (s, mid) := Run(front, l.front, init);
      RunAppend(Barrier.Step, l.barrier, mid, front(s, e).1);
    }
  }

  // Each device's share of the sink, and its line's state, are what that device's
  // line gives when run alone: the interleaving does not matter.
  lemma {:induction false} ProjectionIsAlone<S>(front: Transducer<S>, lines: seq<Line<S>>, input: seq<Tagged>, d: nat)
    requires FromDevices(input, |lines|) && d < |lines|
    ensures var (now, log) := RunAll(front, lines, input);
            Run(Whole(front), lines[d], Project(d, input)) == (now[d], Project(d, log))
    decreases |input|
  {
    hide LineStep;
    if input != [] {
      var init := input[..|input| - 1];
      var (c, e) := input[|input| - 1];
      ProjectionIsAlone(front, lines, init, d);
      var (now, log) := RunAll(front, lines, init);
      var out := LineStep(front, now[c], e).1;
      ProjectTagged(d, c, log, out);
      if c == d {
        var mine := Project(d, init);
        assert Project(d, input) == mine + [e] && (mine + [e])[..|mine + [e]| - 1] == mine;
        assert Whole(front)(now[d], e) == LineStep(front, now[d], e);
      } else {
        assert Project(d, input) == Project(d, init);
        assert Project(d, log) + [] == Project(d, log);
      }
    }
  }

  lemma {:induction false} ProjectTagged(d: nat, c: nat, log: seq<Tagged>, out: seq<Event>)
    ensures Project(d, log + Tag(c, out)) == Project(d, log) + if c == d then out else []
    decreases |out|
  {
    var all := log + Tag(c, out);
    if out == [] {
      assert all == log;
    } else {
      var n := |out| - 1;
      ProjectTagged(d, c, log, out[..n]);
      assert all[..|all| - 1] == log + Tag(c, out[..n]);
      assert out == out[..n] + [out[n]];
    }
  }

  lemma {:induction false} SinkOfTagged<S>(lines: seq<Line<S>>, ps: seq<(nat, Barrier.Packet)>,
                                           d: nat, qs: seq<Barrier.Packet>)
    requires d < |lines|
    ensures Sink(lines, ps + TagPackets(d, qs)) == Sink(lines, ps) + Tag(d, Barrier.Flatten(lines[d].barrier.size, qs))
    decreases |qs|
  {
    hide Barrier.Clip;
    var all := ps + TagPackets(d, qs);
    if qs == [] {
      assert all == ps;
    } else {
      var n, size := |qs| - 1, lines[d].barrier.size;
      SinkOfTagged(lines, ps, d, qs[..n]);
      assert all[..|all| - 1] == ps + TagPackets(d, qs[..n]) && all[|all| - 1] == (d, qs[n]);
      var before, last := Barrier.Flatten(size, qs[..n]), Barrier.Clip(size, qs[n]);
      assert Tag(d, before + last) == Tag(d, before) + Tag(d, last);
      assert Barrier.Flatten(size, qs) == before + last;
    }
  }

  // What one event of device d adds to the sink is the packets it closes.
  lemma EventClosesPackets<S>(front: Transducer<S>, lines: seq<Line<S>>, input: seq<Tagged>)
    requires input != [] && FromDevices(input, |lines|) && Empty(lines)
    ensures var init := input[..|input| - 1];
            var (d, e) := input[|input| - 1];
            && LineStep(front, RunAll(front, lines, init).0[d], e).1
               == Barrier.Flatten(lines[d].barrier.size, NewPackets(front, lines, input, d))
            && Barrier.Packets(FrontStream(front, lines, input, d))
               == Barrier.Packets(FrontStream(front, lines, init, d)) + NewPackets(front, lines, input, d)
  {
    hide Barrier.Step, Barrier.Flatten, Barrier.Packets, Run, Barrier.Take;
    var init := input[..|input| - 1];
    var (d, e) := input[|input| - 1];
    var l, size := lines[d], lines[d].barrier.size;
    var mine := Project(d, init);
    ProjectionIsAlone(front, lines, init, d);
    LineIsComposition(front, l, mine);
    var (s, mid) := Run(front, l.front, mine);
    var next := front(s, e).1;
    assert Project(d, input) == mine + [e];
    RunAppend(front, l.front, mine, [e]);
    RunOne(front, s, e);
    assert FrontStream(front, lines, input, d) == mid + next;
    RunAppend(Barrier.Step, l.barrier, mid, next);
    Barrier.Refines(size, mid);
    Barrier.Refines(size, mid + next);
    Barrier.PacketsGrow(mid, next);
    var earlier, all := Barrier.Packets(mid), Barrier.Packets(mid + next);
    assert all == earlier + all[|earlier|..];
    var new_ := all[|earlier|..];
    Barrier.FlattenAppend(size, earlier, new_);
    assert new_ == NewPackets(front, lines, input, d);
    var (b, out1) := Run(Barrier.Step, l.barrier, mid);
    Cancel(out1, Run(Barrier.Step, b, next).1, Barrier.Flatten(size, new_));
  }

  lemma Cancel(a: seq<Event>, x: seq<Event>, y: seq<Event>)
    requires a + x == a + y
    ensures x == y
  {
    assert x == (a + x)[|a|..];
    assert y == (a + y)[|a|..];
  }

  // Atomicity: under every interleaving the sink receives whole packets of single
  // devices back to back, in the order their SYN_REPORTs arrive.
  lemma {:induction false} SinkIsPackets<S>(front: Transducer<S>, lines: seq<Line<S>>, input: seq<Tagged>)
    requires FromDevices(input, |lines|) && Empty(lines)
    ensures RunAll(front, lines, input).1 == Sink(lines, Packets(front, lines, input))
    decreases |input|
  {
    hide LineStep, NewPackets;
    if input != [] {
      var init, d := input[..|input| - 1], input[|input| - 1].0;
      SinkIsPackets(front, lines, init);
      EventClosesPackets(front, lines, input);
      SinkOfTagged(lines, Packets(front, lines, init), d, NewPackets(front, lines, input, d));
    }
  }

  // No packet is lost, added or reordered within a device: each device's packets in
  // that order are exactly those of its own stream.
  lemma {:induction false} PacketsProject<S>(front: Transducer<S>, lines: seq<Line<S>>, input: seq<Tagged>, d: nat)
    requires FromDevices(input, |lines|) && Empty(lines) && d < |lines|
    ensures ProjectPackets(d, Packets(front, lines, input)) == Barrier.Packets(FrontStream(front, lines, input, d))
    decreases |input|
  {
    hide LineStep, NewPackets;
    if input != [] {
      var init, c := input[..|input| - 1], input[|input| - 1].0;
      PacketsProject(front, lines, init, d);
      EventClosesPackets(front, lines, input);
      ProjectTaggedPackets(d, c, Packets(front, lines, init), NewPackets(front, lines, input, c));
      if c != d {
        assert Project(d, input) == Project(d, init) + [] == Project(d, init);
      }
    }
  }

  lemma {:induction false} ProjectTaggedPackets(d: nat, c: nat, ps: seq<(nat, Barrier.Packet)>, qs: seq<Barrier.Packet>)
    ensures ProjectPackets(d, ps + TagPackets(c, qs)) == ProjectPackets(d, ps) + if c == d then qs else []
    decreases |qs|
  {
    var all := ps + TagPackets(c, qs);
    if qs == [] {
      assert all == ps;
    } else {
      var n := |qs| - 1;
      ProjectTaggedPackets(d, c, ps, qs[..n]);
      assert all[..|all| - 1] == ps + TagPackets(c, qs[..n]);
      assert qs == qs[..n] + [qs[n]];
    }
  }
}
