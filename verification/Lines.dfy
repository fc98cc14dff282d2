// Lists of filters (src/evf_filter.c:170-198) and lines, which add a barrier and a
// commit filter at the end and let filters be attached before them (src/evf_line.c).
module Lines {
  import opened Events
  import opened Stages
  import opened Chain
  import opened FilterHeap
  import opened Fronts

  // The first filter of a stretch of list, or what comes after the stretch.
  function First(fs: seq<Filter>, after: Filter?): Filter? {
    if fs == [] then after else fs[0]
  }

  // Following next through fs, from its first to its last, leads on to `after`; no
  // filter is met twice.
  ghost predicate Stretch(fs: seq<Filter>, after: Filter?)
    reads fs
    decreases |fs|
  {
    fs == [] || (fs[0] !in fs[1..] && fs[0].next == First(fs[1..], after) && Stretch(fs[1..], after))
  }

  // The list that starts at root is exactly fs.
  ghost predicate Linked(root: Filter?, fs: seq<Filter>)
    reads fs
  {
    root == First(fs, null) && Stretch(fs, null)
  }

  lemma {:induction false} StretchConcat(a: seq<Filter>, b: seq<Filter>, after: Filter?)
    requires Stretch(a, First(b, after)) && Stretch(b, after)
    requires forall f :: f in a ==> f !in b
    ensures Stretch(a + b, after)
    decreases |a|
  {
    if a == [] {
      assert a + b == b;
    } else {
      StretchConcat(a[1..], b, after);
      assert (a + b)[1..] == a[1..] + b;
    }
  }

  lemma {:induction false} StretchSplit(a: seq<Filter>, b: seq<Filter>, after: Filter?)
    requires Stretch(a + b, after)
    ensures Stretch(a, First(b, after)) && Stretch(b, after)
    ensures forall f :: f in a ==> f !in b
    decreases |a|
  {
    if a == [] {
      assert a + b == b;
    } else {
      assert (a + b)[1..] == a[1..] + b;
      StretchSplit(a[1..], b, after);
    }
  }

  lemma StretchOne(f: Filter, after: Filter?)
    ensures Stretch([f], after) <==> f.next == after
  {
    assert [f][1..] == [];
  }

  // evf_filters_last
  method FiltersLast(root: Filter?, ghost fs: seq<Filter>) returns (last: Filter?)
    requires Linked(root, fs)
    ensures last == if fs == [] then null else fs[|fs| - 1]
  {
    if root == null {
      return null;
    }
    var tmp := root;
    ghost var rest := fs;
    while tmp.next != null
      invariant rest != [] && tmp == rest[0] && Stretch(rest, null)
      invariant rest[|rest| - 1] == fs[|fs| - 1]
      decreases |rest|
    {
      tmp := tmp.next;
      rest := rest[1..];
    }
    return tmp;
  }

  // here->next = there, where `there` starts the list `after`.
  method LinkAfter(here: Filter, there: Filter?, ghost before: seq<Filter>, ghost after: seq<Filter>)
    requires Stretch(before, here) && Linked(there, after)
    requires here !in before && here !in after && forall f :: f in before ==> f !in after
    modifies here`next
    ensures Linked(First(before, here), before + ([here] + after))
  {
    here.next := there;
    StretchOne(here, there);
    StretchConcat([here], after, null);
    StretchConcat(before, [here] + after, null);
  }

  // The list up to its last filter.
  lemma SplitLast(fs: seq<Filter>)
    requires Stretch(fs, null) && fs != []
    ensures var before, last := fs[..|fs| - 1], fs[|fs| - 1];
            Stretch(before, last) && last !in before && fs == before + [last]
  {
    assert fs == fs[..|fs| - 1] + [fs[|fs| - 1]];
    StretchSplit(fs[..|fs| - 1], [fs[|fs| - 1]], null);
  }

  lemma SplitAt(fs: seq<Filter>, k: nat)
    requires Stretch(fs, null) && k < |fs|
    ensures var before, here, after := fs[..k], fs[k], fs[k + 1..];
            && Stretch(before, here) && Stretch(after, null) && here.next == First(after, null)
            && here !in before && here !in after && (forall f :: f in before ==> f !in after && f in fs)
  {
    var after := fs[k + 1..];
    assert fs == fs[..k] + ([fs[k]] + after);
    StretchSplit(fs[..k], [fs[k]] + after, null);
    StretchSplit([fs[k]], after, null);
    StretchOne(fs[k], First(after, null));
  }

  // Put a filter right after here.
  method InsertAfter(here: Filter, filter: Filter, ghost fs: seq<Filter>, ghost k: nat)
    requires Stretch(fs, null) && k < |fs| && fs[k] == here && filter !in fs
    modifies here`next, filter`next
    ensures Linked(fs[0], fs[..k + 1] + [filter] + fs[k + 1..])
  {
    ghost var before, after := fs[..k], fs[k + 1..];
    SplitAt(fs, k);
    LinkAfter(filter, here.next, [], after);
    InsertedParts(fs, k, filter);
    LinkAfter(here, filter, before, [filter] + after);
  }

  lemma InsertedParts(fs: seq<Filter>, k: nat, filter: Filter)
    requires k < |fs|
    ensures var before, after := fs[..k], fs[k + 1..];
            && [] + ([filter] + after) == [filter] + after
            && before + ([fs[k]] + ([filter] + after)) == fs[..k + 1] + [filter] + after
            && First(before, fs[k]) == fs[0]
  {
  }

  // evf_filters_merge: the second list follows the first; no filter's state changes.
  method FiltersMerge(root: Filter?, filters: Filter?, ghost a: seq<Filter>, ghost b: seq<Filter>)
    returns (merged: Filter?)
    requires Linked(root, a) && Linked(filters, b)
    requires forall f :: f in a ==> f !in b
    modifies if a == [] then {} else {a[|a| - 1]}
    ensures Linked(merged, a + b)
    ensures forall f :: f in a + b ==> f.data == old(f.data)
  {
    if root == null {
      assert a + b == b;
      return filters;
    }
    var last := FiltersLast(root, a);
    SplitLast(a);
    LinkAfter(last, filters, a[..|a| - 1], b);
    assert a + b == a[..|a| - 1] + ([last] + b);
    return root;
  }

  // A linked list of sound filters with slots of their own and a commit filter at the
  // end can process events.
  lemma {:induction false} LinkedReady(root: Filter?, fs: seq<Filter>)
    requires Linked(root, fs) && fs != []
    requires forall f :: f in fs ==> f.Ok()
    requires forall i, j, c :: 0 <= i < j < |fs| && c in fs[i].queue ==> c !in fs[j].queue
    requires fs[|fs| - 1].State().Commit?
    ensures Ready(fs)
    decreases |fs|
  {
    SlotsAreQueues(fs[1..]);
    if |fs| > 1 {
      LinkedReady(fs[1], fs[1..]);
    }
  }

  lemma {:induction false} ReadyLinked(fs: seq<Filter>)
    requires Ready(fs)
    ensures Linked(fs[0], fs)
    decreases |fs|
  {
    if |fs| > 1 {
      ReadyLinked(fs[1..]);
    }
  }

  lemma {:induction false} SlotsAreQueues(fs: seq<Filter>)
    ensures forall c :: c in Slots(fs) <==> exists i :: 0 <= i < |fs| && c in fs[i].queue
    decreases |fs|
  {
    if fs != [] {
      SlotsAreQueues(fs[1..]);
      forall c ensures c in Slots(fs) <==> exists i :: 0 <= i < |fs| && c in fs[i].queue {
        if c in Slots(fs[1..]) {
          var i :| 0 <= i < |fs| - 1 && c in fs[1..][i].queue;
          assert c in fs[i + 1].queue;
        }
        if i :| 1 <= i < |fs| && c in fs[i].queue {
          assert c in fs[1..][i - 1].queue;
        }
      }
    }
  }

  lemma {:induction false} ReadyValid(fs: seq<Filter>)
    requires Ready(fs)
    ensures Stages.Valid(States(fs))
    decreases |fs|
  {
    if |fs| > 1 { ReadyValid(fs[1..]); }
  }

  lemma {:induction false} StatesConcat(a: seq<Filter>, b: seq<Filter>)
    ensures States(a + b) == States(a) + States(b)
    decreases |a|
  {
    if a == [] {
      assert a + b == b;
    } else {
      StatesConcat(a[1..], b);
      assert (a + b)[1..] == a[1..] + b;
    }
  }

  // What a merged list does to a stream is b's transformation after a's.
  lemma MergeComposes(a: seq<Filter>, b: seq<Filter>, es: seq<Event>)
    ensures var mid := RunChain(States(a), es).1;
            RunChain(States(a + b), es).1 == RunChain(States(b), mid).1
  {
    StatesConcat(a, b);
    RunChainConcat(States(a), States(b), es);
  }

  // What every line ends in.
  function TailOf(barrier: Filter?, commit: Filter): seq<Filter> {
    if barrier == null then [commit] else [barrier, commit]
  }

  method LinkTail(barrier: Filter?, commit: Filter) returns (last: Filter)
    requires commit.next == null && barrier != commit
    modifies if barrier == null then {} else {barrier}
    ensures Linked(last, TailOf(barrier, commit))
    ensures barrier != null ==> barrier.data == old(barrier.data)
  {
    StretchOne(commit, null);
    if barrier == null {
      return commit;
    }
    LinkAfter(barrier, commit, [], [commit]);
    assert [] + ([barrier] + [commit]) == TailOf(barrier, commit);
    return barrier;
  }

  // Barrier and commit go after the filters of a new line, or are the line.
  method LinkAll(first: Filter?, end: Filter?, barrier: Filter?, commit: Filter, ghost fs: seq<Filter>)
    returns (begin: Filter?)
    requires Linked(first, fs) && commit !in fs && barrier !in fs
    requires commit.next == null && barrier != commit
    requires end == if fs == [] then null else fs[|fs| - 1]
    modifies fs, if barrier == null then {} else {barrier}
    ensures Linked(begin, fs + TailOf(barrier, commit))
    ensures forall f :: f in fs + TailOf(barrier, commit) ==> f.data == old(f.data)
  {
    ghost var tail := TailOf(barrier, commit);
    var last := LinkTail(barrier, commit);
    if first == null {
      begin := last;
      assert fs + tail == tail;
    } else {
      begin := first;
      SplitLast(fs);
      LinkAfter(end, last, fs[..|fs| - 1], tail);
      assert fs + tail == fs[..|fs| - 1] + ([end] + tail);
    }
  }

  // What reading from a device may come to.
  datatype Read = Got(ev: Event) | Again | Failed

  class Line {
    var begin: Filter?
    var end: Filter?
    ghost var filters: seq<Filter>  // all but the tail
    ghost var tail: seq<Filter>     // barrier, if any, and commit
    ghost var anchor: nat           // where end points into filters

    ghost predicate Valid()
      reads this, filters, tail
    {
      && Linked(begin, filters + tail) && tail != []
      && (end == null <==> filters == [])
      && (filters != [] ==> anchor < |filters| && end == filters[anchor])
    }

    // The list-building part of evf_line_create.
    constructor (first: Filter?, barrier: Filter?, commit: Filter, ghost fs: seq<Filter>)
      requires Linked(first, fs) && commit !in fs && barrier !in fs
      requires commit.next == null && barrier != commit
      modifies fs, if barrier == null then {} else {barrier}
      ensures Valid() && filters == fs && tail == if barrier == null then [commit] else [barrier, commit]
      ensures fs != [] ==> anchor == |fs| - 1
      ensures forall f :: f in fs + tail ==> f.data == old(f.data)
    {
      begin, end := first, null;
      filters, tail, anchor := fs, TailOf(barrier, commit), if fs == [] then 0 else |fs| - 1;
      new;
      end := FiltersLast(first, fs);
      begin := LinkAll(first, end, barrier, commit, fs);
    }

    // evf_line_attach_filter: end stays where it was.
    method Attach(filter: Filter)
      requires Valid() && filter !in filters + tail
      modifies this, filter, end
      ensures Valid() && tail == old(tail)
      ensures (filters, anchor) == AttachOne(old(filters), old(anchor), filter)
      ensures forall f :: f in filters + tail ==> f.data == old(f.data)
    {
      if end == null {
        assert filters + tail == tail;
        LinkAfter(filter, begin, [], tail);
        begin := filter;
        end := filter;
        anchor := 0;
        filters := [filter];
        assert [] + ([filter] + tail) == filters + tail;
      } else {
        ghost var all, k := filters + tail, anchor + 1;
        InsertAfter(end, filter, all, anchor);
        filters := filters[..k] + [filter] + filters[k..];
        assert filters + tail == all[..k] + [filter] + all[k..];
      }
    }

    // evf_line_process_event
    method Process(ev: Cell)
      requires Valid() && Ready(filters + tail) && ev !in Slots(filters + tail)
      modifies filters, tail, Slots(filters + tail), ev
      ensures Valid() && Ready(filters + tail)
      ensures States(filters + tail) == old(Push(States(filters + tail), ev.Value()).chain)
    {
      begin.Modify(ev, filters + tail);
      ReadyLinked(filters + tail);
    }

    // evf_line_process: reads one event into a local struct, which held `stale`. A read
    // that would have had to wait is not told from one that succeeded.
    method ProcessOne(read: Read, stale: Event) returns (ret: int)
      requires Valid() && Ready(filters + tail)
      modifies filters, tail, Slots(filters + tail)
      ensures Valid() && Ready(filters + tail)
      ensures ret == if read.Failed? then -1 else 0
      ensures States(filters + tail)
           == if read.Failed? then old(States(filters + tail))
              else old(Push(States(filters + tail), if read.Got? then read.ev else stale).chain)
    {
      hide Push, PushAll, States;
      SlotsAllocated(filters + tail);
      if read.Failed? {
        return -1;
      }
      var ev := new Cell(if read.Got? then read.ev else stale);
      Process(ev);
      return 0;
    }

    // The events of a device, as they are read: when the chain is clean the filters end
    // up as stage-by-stage composition leaves them, the commit's record included.
    method ProcessAll(es: seq<Event>)
      requires Valid() && Ready(filters + tail)
      modifies filters, tail, Slots(filters + tail)
      ensures Valid() && Ready(filters + tail)
      ensures States(filters + tail) == PushEach(old(States(filters + tail)), es).0
      ensures old(Clean(States(filters + tail), true)) ==>
                States(filters + tail) == RunChain(old(States(filters + tail)), es).0
    {
      hide Push, PushEach, RunChain, Clean, States;
      ghost var fs, start := filters + tail, States(filters + tail);
      ReadyValid(fs);
      PushEachNothing(start);
      assert es[..0] == [];
      var i := 0;
      while i < |es|
        invariant 0 <= i <= |es| && Valid() && Ready(fs) && filters + tail == fs
        invariant States(fs) == PushEach(start, es[..i]).0
      {
        EachNext(start, es, i);
        var _ := ProcessOne(Got(es[i]), NOTHING);
        i := i + 1;
      }
      assert es[..i] == es;
      if Clean(start, true) {
        RunIsComposition(start, es);
      }
    }
  }

  lemma EachNext(c: seq<Stage>, es: seq<Event>, i: nat)
    requires i < |es|
    ensures PushEach(c, es[..i + 1]).0 == Push(PushEach(c, es[..i]).0, es[i]).chain
  {
    hide Push, PushAll;
    assert es[..i + 1] == es[..i] + [es[i]];
    PushEachAppend(c, es[..i], [es[i]]);
    PushEachOne(PushEach(c, es[..i]).0, es[i]);
  }

  function AttachOne<T>(filters: seq<T>, anchor: nat, x: T): (seq<T>, nat) {
    if filters == [] || anchor >= |filters| then ([x], 0)
    else (filters[..anchor + 1] + [x] + filters[anchor + 1..], anchor)
  }

  // Several filters attached one after the other to a new line with the given filters.
  function AttachAll<T>(filters: seq<T>, xs: seq<T>): (seq<T>, nat)
    decreases |xs|
  {
    if xs == [] then (filters, if filters == [] then 0 else |filters| - 1)
    else
      var (before, anchor) := AttachAll(filters, xs[..|xs| - 1]);
      AttachOne(before, anchor, xs[|xs| - 1])
  }

  function Reversed<T>(xs: seq<T>): (r: seq<T>)
    ensures |r| == |xs| && forall i :: 0 <= i < |xs| ==> r[i] == xs[|xs| - 1 - i]
  {
    if xs == [] then [] else [xs[|xs| - 1]] + Reversed(xs[..|xs| - 1])
  }

  // Filters end up in reverse order of attachment, after what the line had to begin
  // with; on an empty line the first one attached stays first.
  lemma {:induction false} AttachOrder<T>(filters: seq<T>, xs: seq<T>)
    ensures AttachAll(filters, xs).0
         == if filters == [] && xs != [] then [xs[0]] + Reversed(xs[1..]) else filters + Reversed(xs)
    ensures AttachAll(filters, xs).1 == if filters == [] then 0 else |filters| - 1
    decreases |xs|
  {
    hide AttachOne, Reversed;
    if xs == [] {
      assert Reversed(xs) == [] && filters + [] == filters;
    } else {
      var n, x := |xs| - 1, xs[|xs| - 1];
      AttachOrder(filters, xs[..n]);
      if filters != [] {
        AttachBehind(filters, Reversed(xs[..n]), x);
        ReversedSnoc(xs);
      } else if n == 0 {
        assert Reversed(xs[..0]) == [] && [] + Reversed(xs[..0]) == [];
        AttachFirst(x);
        assert Reversed(xs[1..]) == [] && [x] + [] == [x];
      } else {
        AttachBehind([xs[0]], Reversed(xs[..n][1..]), x);
        assert xs[..n][1..] == xs[1..][..n - 1];
        ReversedSnoc(xs[1..]);
      }
    }
  }

  lemma AttachFirst<T>(x: T)
    ensures AttachOne([], 0, x) == ([x], 0)
  {
  }

  lemma AttachBehind<T>(front: seq<T>, later: seq<T>, x: T)
    requires front != []
    ensures AttachOne(front + later, |front| - 1, x) == (front + ([x] + later), |front| - 1)
  {
    var all := front + later;
    assert all[..|front|] == front && all[|front|..] == later;
    assert front + [x] + later == front + ([x] + later);
  }

  lemma ReversedSnoc<T>(xs: seq<T>)
    requires xs != []
    ensures Reversed(xs) == [xs[|xs| - 1]] + Reversed(xs[..|xs| - 1])
  {
  }

  // The order the header promises, each filter after those attached before it, is kept
  // exactly when at most one filter is attached, or two to an empty line.
  lemma DocumentedOrderIff<T>(filters: seq<T>, xs: seq<T>)
    requires forall i, j :: 0 <= i < j < |xs| ==> xs[i] != xs[j]
    ensures AttachAll(filters, xs).0 == filters + xs <==> |xs| <= (if filters == [] then 2 else 1)
  {
    AttachOrder(filters, xs);
    var r := AttachAll(filters, xs).0;
    if filters == [] {
      assert filters + xs == xs;
      if |xs| > 2 { assert r[1] == xs[|xs| - 1] != xs[1]; }
    } else {
      if |xs| > 1 { assert r[|filters|] == xs[|xs| - 1] != (filters + xs)[|filters|]; }
    }
  }
}
