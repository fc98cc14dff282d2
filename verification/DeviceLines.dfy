// Whole device lines in one process: any chain of filters, then a barrier, then the
// commit filter that feeds the sink all lines share (src/evf_line.c:99-181).
module DeviceLines {
  import opened Events
  import opened Stages
  import opened Chain
  import opened Fronts
  import BR = Barrier
  import Sink = SharedSink

  // A chain as one filter, run as the code runs it.
  function ChainStep(c: seq<Stage>, e: Event): (seq<Stage>, seq<Event>) {
    var r := Push(c, e);
    (r.chain, r.out)
  }

  lemma {:induction false} ChainStepRuns(c: seq<Stage>, es: seq<Event>)
    ensures Run(ChainStep, c, es) == PushEach(c, es)
    decreases |es|
  {
    hide Push;
    if es != [] {
      ChainStepRuns(c, es[..|es| - 1]);
    }
  }

  // A line in full; its commit filter has recorded log.
  function Whole(l: Sink.Line<seq<Stage>>, log: seq<Event>): seq<Stage> {
    l.front + [Barrier(l.barrier), Commit(log)]
  }

  predicate Sound(l: Sink.Line<seq<Stage>>) {
    Valid(l.front) && l.barrier.Valid()
  }

  // One event pushed into a whole line: its filters hand the barrier what they would hand
  // to anybody, and the sink gets what the barrier lets through.
  lemma LinePush(l: Sink.Line<seq<Stage>>, log: seq<Event>, e: Event)
    requires Sound(l)
    ensures var (l', out) := Sink.LineStep(ChainStep, l, e);
            var r := Push(Whole(l, log), e);
            r.chain == Whole(l', log + out) && r.out == out && Sound(l')
  {
    hide Push, BR.Step;
    var mid := Push(l.front, e).out;
    var w := [Barrier(l.barrier), Commit(log)];
    PushFront(l.front, w, e);
    PushKeeps(l.front, e);
    BarrierFront(l.barrier, [Commit(log)], mid);
    assert w == [Barrier(l.barrier)] + [Commit(log)];
    var (b, out) := Run(BR.Step, l.barrier, mid);
    CommitEach(log, out);
    assert [Barrier(b)] + [Commit(log + out)] == [Barrier(b), Commit(log + out)];
    BarrierKeeps(l.barrier, mid);
  }

  lemma {:induction false} BarrierKeeps(b: BR.State, es: seq<Event>)
    requires b.Valid()
    ensures Run(BR.Step, b, es).0.Valid()
    decreases |es|
  {
    if es != [] { BarrierKeeps(b, es[..|es| - 1]); }
  }

  lemma {:induction false} CommitEach(log: seq<Event>, es: seq<Event>)
    ensures PushEach([Commit(log)], es) == ([Commit(log + es)], es)
    decreases |es|
  {
    hide Push, PushAll;
    if es == [] {
      PushEachNothing([Commit(log)]);
      assert log + [] == log;
    } else {
      var init, e := es[..|es| - 1], es[|es| - 1];
      CommitEach(log, init);
      PushEachAppend([Commit(log)], init, [e]);
      CommitPush(log + init, e);
      PushEachOne([Commit(log + init)], e);
      assert es == init + [e] && (log + init) + [e] == log + (init + [e]);
    }
  }

  lemma CommitPush(log: seq<Event>, e: Event)
    ensures Push([Commit(log)], e) == Pushed([Commit(log + [e])], [e], e)
  {
    var c := [Commit(log)];
    assert c[1..] == [];
    PushOne([], e, e);
  }

  // All lines, each event pushed into its device's chain as it arrives, and what the
  // shared sink has received.
  function Interleave(chains: seq<seq<Stage>>, input: seq<Sink.Tagged>): (r: (seq<seq<Stage>>, seq<Sink.Tagged>))
    requires Sink.FromDevices(input, |chains|)
    ensures |r.0| == |chains|
    decreases |input|
  {
    if input == [] then (chains, [])
    else
      var (now, log) := Interleave(chains, input[..|input| - 1]);
      var (d, e) := input[|input| - 1];
      var r := Push(now[d], e);
      (now[d := r.chain], log + Sink.Tag(d, r.out))
  }

  // Every line's commit filter has recorded its own part of what the sink received.
  function Wholes(lines: seq<Sink.Line<seq<Stage>>>, log: seq<Sink.Tagged>): (r: seq<seq<Stage>>)
    ensures |r| == |lines|
  {
    seq(|lines|, d requires 0 <= d < |lines| => Whole(lines[d], Sink.Project(d, log)))
  }

  predicate AllSound(lines: seq<Sink.Line<seq<Stage>>>) {
    forall d :: 0 <= d < |lines| ==> Sound(lines[d])
  }

  // The interleaved pushes are a run of lines as SharedSink describes them.
  lemma {:induction false} PushesAreLineSteps(lines: seq<Sink.Line<seq<Stage>>>, input: seq<Sink.Tagged>)
    requires Sink.FromDevices(input, |lines|) && AllSound(lines)
    ensures var (now, log) := Sink.RunAll(ChainStep, lines, input);
            AllSound(now) && Interleave(Wholes(lines, []), input) == (Wholes(now, log), log)
    decreases |input|
  {
    hide Push, Sink.LineStep, Whole, Sink.Project, Sink.Tag;
    if input != [] {
      var init := input[..|input| - 1];
      var (d, e) := input[|input| - 1];
      PushesAreLineSteps(lines, init);
      var (now, log) := Sink.RunAll(ChainStep, lines, init);
      var (l, out) := Sink.LineStep(ChainStep, now[d], e);
      LinePush(now[d], Sink.Project(d, log), e);
      var log' := log + Sink.Tag(d, out);
      var now' := now[d := l];
      var pushed := Wholes(now, log)[d := Whole(l, Sink.Project(d, log) + out)];
      forall i | 0 <= i < |now| ensures pushed[i] == Wholes(now', log')[i] {
        Sink.ProjectTagged(i, d, log, out);
        assert Sink.Project(i, log) + [] == Sink.Project(i, log);
      }
      assert pushed == Wholes(now', log');
    }
  }

  // Lines over any chains of filters share a sink: under every interleaving of pushes it
  // receives whole packets in the order their SYN_REPORTs arrive, and each device's part
  // is what its own filters' stream gives, cut into packets, when it runs alone. That
  // stream is the composition of the filters if the chain is clean.
  lemma LinesShareSink(lines: seq<Sink.Line<seq<Stage>>>, input: seq<Sink.Tagged>, d: nat)
    requires Sink.FromDevices(input, |lines|) && Sink.Empty(lines) && AllSound(lines) && d < |lines|
    ensures var log := Interleave(Wholes(lines, []), input).1;
            var packets := Sink.Packets(ChainStep, lines, input);
            var mine := Sink.Project(d, input);
            var stream := PushEach(lines[d].front, mine).1;
            && log == Sink.Sink(lines, packets)
            && Sink.ProjectPackets(d, packets) == BR.Packets(stream)
            && Sink.Project(d, log) == BR.Flatten(lines[d].barrier.size, BR.Packets(stream))
            && (Clean(lines[d].front, true) ==> stream == RunChain(lines[d].front, mine).1)
  {
    hide Push, RunChain, Clean;
    var mine := Sink.Project(d, input);
    PushesAreLineSteps(lines, input);
    Sink.SinkIsPackets(ChainStep, lines, input);
    Sink.PacketsProject(ChainStep, lines, input, d);
    Sink.ProjectionIsAlone(ChainStep, lines, input, d);
    Sink.LineIsComposition(ChainStep, lines[d], mine);
    ChainStepRuns(lines[d].front, mine);
    BR.Refines(lines[d].barrier.size, PushEach(lines[d].front, mine).1);
    if Clean(lines[d].front, true) {
      RunIsComposition(lines[d].front, mine);
    }
  }

  // One line alone, over any chain of filters: its commit filter records whole packets of
  // the stream its filters give, each cut to the barrier's size.
  lemma LineDelivers(filters: seq<Stage>, size: nat, es: seq<Event>)
    requires Valid(filters)
    ensures var line := filters + [Barrier(BR.Init(size)), Commit([])];
            var stream := PushEach(filters, es).1;
            && PushEach(line, es).0[|filters| + 1] == Commit(BR.Flatten(size, BR.Packets(stream)))
            && (Clean(filters, true) ==> stream == RunChain(filters, es).1)
  {
    hide Push, PushAll, RunChain, Clean;
    var stream := PushEach(filters, es).1;
    var w := [Barrier(BR.Init(size)), Commit([])];
    RunFront(filters, w, es);
    BarrierFront(BR.Init(size), [Commit([])], stream);
    assert w == [Barrier(BR.Init(size))] + [Commit([])];
    BR.Refines(size, stream);
    CommitEach([], BR.Flatten(size, BR.Packets(stream)));
    assert [] + BR.Flatten(size, BR.Packets(stream)) == BR.Flatten(size, BR.Packets(stream));
    if Clean(filters, true) {
      RunIsComposition(filters, es);
    }
  }
}
