// The filters of a chain, and the chain as a function on streams: each filter reads
// the whole stream its predecessor wrote.
module Stages {
  import opened Events
  import SM = SpeedMod
  import RS = Rel2Scroll
  import BR = Barrier
  import KL = KeyLock
  import PK = PressureToKey
  import FH = FilterToHandle

  datatype Stage =
    | SpeedMod(speed: SM.State)
    | Rel2Scroll(scroll: RS.State)
    | Barrier(barrier: BR.State)
    | KeyLock(lock: KL.State)
    | PressureToKey(pressure: PK.State)
    | FilterToHandle(handle: FH.State)
    | KeySubstitute(keyFrom: int, keyTo: int)
    | Commit(log: seq<Event>)

  function Step(s: Stage, e: Event): (Stage, seq<Event>) {
    match s
    case SpeedMod(t) => var (t', out) := SM.Step(t, e); (SpeedMod(t'), out)
    case Rel2Scroll(t) => var (t', out) := RS.Step(t, e); (Rel2Scroll(t'), out)
    case Barrier(t) => var (t', out) := BR.Step(t, e); (Barrier(t'), out)
    case KeyLock(t) => var (t', out) := KL.Step(t, e); (KeyLock(t'), out)
    case PressureToKey(t) => var (t', out) := PK.Step(t, e); (PressureToKey(t'), out)
    case FilterToHandle(t) => var (t', out) := FH.Step(t, e); (FilterToHandle(t'), out)
    case KeySubstitute(from, to) => (s, [if IsKey(e, from) then e.(code := to) else e])
    case Commit(log) => (Commit(log + [e]), [e])
  }

  // A filter as it is allocated: what stays of it over a run, and what is known of it
  // beforehand. Of the filters behind a handle that is whether they rewrite events.
  function Fresh(s: Stage): Stage {
    match s
    case SpeedMod(t) => SpeedMod(SM.Init(t.xmod, t.ymod))
    case Rel2Scroll(t) => Rel2Scroll(RS.Init(t.trigger, t.xmod, t.ymod))
    case Barrier(t) => Barrier(BR.Init(t.size))
    case KeyLock(t) => KeyLock(KL.Init(t.key))
    case PressureToKey(t) => PressureToKey(PK.Init(t.treshold, t.key))
    case FilterToHandle(t) => FilterToHandle(FH.Init(t.kind, t.code, FH.Idle(t.receiver.rewrites)))
    case KeySubstitute(_, _) => s
    case Commit(_) => Commit([])
  }

  // Just allocated, with any filters behind its handle.
  ghost predicate IsNew(s: Stage) {
    match s
    case FilterToHandle(t) => t == FH.Init(t.kind, t.code, t.receiver)
    case _ => s == Fresh(s)
  }

  predicate ValidStage(s: Stage) {
    s.Barrier? ==> s.barrier.Valid()
  }

  lemma StepKeepsKind(s: Stage, e: Event)
    requires ValidStage(s)
    ensures var s' := Step(s, e).0;
            Fresh(s') == Fresh(s) && ValidStage(s')
  {
  }

  ghost predicate SameFilters(a: seq<Stage>, b: seq<Stage>) {
    |a| == |b| && forall i :: 0 <= i < |a| ==> Fresh(a[i]) == Fresh(b[i])
  }

  predicate Valid(c: seq<Stage>) {
    forall i :: 0 <= i < |c| ==> ValidStage(c[i])
  }

  // Stage-by-stage composition: the new state of every filter, and the stream that
  // leaves the last one.
  function RunChain(c: seq<Stage>, es: seq<Event>): (r: (seq<Stage>, seq<Event>))
    ensures |r.0| == |c|
    decreases |c|
  {
    if c == [] then ([], es)
    else
      var (s, mid) := Run(Step, c[0], es);
      var (rest, out) := RunChain(c[1..], mid);
      ([s] + rest, out)
  }

  lemma {:induction false} RunChainAppend(c: seq<Stage>, a: seq<Event>, b: seq<Event>)
    ensures var (c1, out1) := RunChain(c, a);
            var (c2, out2) := RunChain(c1, b);
            RunChain(c, a + b) == (c2, out1 + out2)
    decreases |c|
  {
    hide Step, Run;
    if c != [] {
      RunAppend(Step, c[0], a, b);
      var (s1, mid1) := Run(Step, c[0], a);
      var mid2 := Run(Step, s1, b).1;
      RunChainAppend(c[1..], mid1, mid2);
      var c1 := RunChain(c, a).0;
      assert c1[0] == s1 && c1[1..] == RunChain(c[1..], mid1).0;
    }
  }

  lemma {:induction false} RunChainNothing(c: seq<Stage>)
    ensures RunChain(c, []) == (c, [])
    decreases |c|
  {
    if c != [] {
      RunChainNothing(c[1..]);
      RunNothing(Step, c[0]);
      assert [c[0]] + c[1..] == c;
    }
  }

  lemma {:induction false} RunKeepsKind(s: Stage, es: seq<Event>)
    requires ValidStage(s)
    ensures var s' := Run(Step, s, es).0;
            Fresh(s') == Fresh(s) && ValidStage(s')
    decreases |es|
  {
    hide Step, Fresh, ValidStage;
    if es != [] {
      RunKeepsKind(s, es[..|es| - 1]);
      StepKeepsKind(Run(Step, s, es[..|es| - 1]).0, es[|es| - 1]);
    }
  }

  lemma {:induction false} RunChainKeeps(c: seq<Stage>, es: seq<Event>)
    requires Valid(c)
    ensures var c' := RunChain(c, es).0;
            SameFilters(c', c) && Valid(c')
    decreases |c|
  {
    hide Step, Fresh, ValidStage, Run;
    if c != [] {
      RunKeepsKind(c[0], es);
      var mid := Run(Step, c[0], es).1;
      RunChainKeeps(c[1..], mid);
      var c' := RunChain(c, es).0;
      assert c'[0] == Run(Step, c[0], es).0 && c'[1..] == RunChain(c[1..], mid).0;
      forall i | 0 <= i < |c| ensures Fresh(c'[i]) == Fresh(c[i]) && ValidStage(c'[i]) {
        if i > 0 { assert c'[i] == c'[1..][i - 1] && c[i] == c[1..][i - 1]; }
      }
    }
  }

  // KeySubstitute gives each event of the one key the code of the other, changes nothing
  // else, and hands on one event for each it is given.
  lemma {:induction false} Substituted(from: int, to: int, es: seq<Event>)
    ensures var (s, out) := Run(Step, KeySubstitute(from, to), es);
            && s == KeySubstitute(from, to) && |out| == |es|
            && forall i :: 0 <= i < |es| ==>
                 out[i] == if es[i].kind == EV_KEY && es[i].code == from then Event(EV_KEY, to, es[i].value) else es[i]
    decreases |es|
  {
    if es != [] {
      Substituted(from, to, es[..|es| - 1]);
    }
  }

  // The chain a then b.
  lemma {:induction false} RunChainConcat(a: seq<Stage>, b: seq<Stage>, es: seq<Event>)
    ensures var (a', mid) := RunChain(a, es);
            var (b', out) := RunChain(b, mid);
            RunChain(a + b, es) == (a' + b', out)
    decreases |a|
  {
    hide Step, Run;
    if a == [] {
      assert a + b == b;
      assert RunChain(a, es).0 + RunChain(b, es).0 == RunChain(b, es).0;
    } else {
      var mid := Run(Step, a[0], es).1;
      RunChainConcat(a[1..], b, mid);
      assert (a + b)[0] == a[0] && (a + b)[1..] == a[1..] + b;
      var s := Run(Step, a[0], es).0;
      var (rest, out) := RunChain(a[1..], mid);
      var b' := RunChain(b, out).0;
      assert ([s] + rest) + b' == [s] + (rest + b');
    }
  }

  // What the commit filter at the end records is the stream the filters before it let
  // through.
  lemma CommitRecords(c: seq<Stage>, log: seq<Event>, es: seq<Event>)
    ensures var (c', out) := RunChain(c, es);
            RunChain(c + [Commit(log)], es) == (c' + [Commit(log + out)], out)
  {
    RunChainConcat(c, [Commit(log)], es);
    var out := RunChain(c, es).1;
    RunCommit(log, out);
    assert [Commit(log)][1..] == [];
    assert RunChain([], out) == ([], out);
    assert [Commit(log + out)] + [] == [Commit(log + out)];
  }

  lemma {:induction false} RunCommit(log: seq<Event>, es: seq<Event>)
    ensures Run(Step, Commit(log), es) == (Commit(log + es), es)
    decreases |es|
  {
    if es == [] {
      assert log + [] == log;
    } else {
      var init, e := es[..|es| - 1], es[|es| - 1];
      RunCommit(log, init);
      assert es == init + [e];
      assert (log + init) + [e] == log + (init + [e]);
    }
  }
}
