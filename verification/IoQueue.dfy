// src/evf_io_queue.c: file descriptors waited on with select, as a list in descending
// order beside a bit set. Descriptors are distinct; callbacks do not touch the queue.
module IoQueue {

  const REM := 1  // bits of a callback's result
  const CLOSE := 2

  predicate HasRem(ret: int) {
    ret / REM % 2 == 1
  }

  predicate HasClose(ret: int) {
    ret / CLOSE % 2 == 1
  }

  // A result is a sum of flags: REM, CLOSE and others the queue does not look at.
  lemma FlagsRead(rem: bool, close: bool, others: int)
    ensures var ret := (if rem then 1 else 0) + (if close then 2 else 0) + 4 * others;
            HasRem(ret) == rem && HasClose(ret) == close
  {
  }

  class Memb {
    const fd: int
    var next: Memb?

    constructor (fd: int)
      ensures this.fd == fd
    {
      this.fd := fd;
    }
  }

  function First(ms: seq<Memb>, after: Memb?): Memb? {
    if ms == [] then after else ms[0]
  }

  // Following next through ms leads on to `after`.
  ghost predicate Stretch(ms: seq<Memb>, after: Memb?)
    reads ms
    decreases |ms|
  {
    ms == [] || (ms[0].next == First(ms[1..], after) && Stretch(ms[1..], after))
  }

  predicate Descending(fds: seq<int>) {
    forall i, j :: 0 <= i < j < |fds| ==> fds[i] > fds[j]
  }

  function Fds(ms: seq<Memb>): (r: seq<int>)
    ensures |r| == |ms| && forall i :: 0 <= i < |ms| ==> r[i] == ms[i].fd
  {
    seq(|ms|, i requires 0 <= i < |ms| => ms[i].fd)
  }

  // The list from root on is ms, in strictly descending order.
  ghost predicate Listed(root: Memb?, ms: seq<Memb>)
    reads ms
  {
    root == First(ms, null) && Stretch(ms, null) && Descending(Fds(ms))
  }

  lemma {:induction false} StretchConcat(a: seq<Memb>, b: seq<Memb>, after: Memb?)
    requires Stretch(a, First(b, after)) && Stretch(b, after)
    ensures Stretch(a + b, after)
    decreases |a|
  {
    if a == [] {
      assert a + b == b;
    } else {
      StretchConcat(a[1..], b, after);
      assert (a + b)[1..] == a[1..] + b;
    }
  }

  lemma {:induction false} StretchSplit(a: seq<Memb>, b: seq<Memb>, after: Memb?)
    requires Stretch(a + b, after)
    ensures Stretch(a, First(b, after)) && Stretch(b, after)
    decreases |a|
  {
    if a == [] {
      assert a + b == b;
    } else {
      assert (a + b)[1..] == a[1..] + b;
      StretchSplit(a[1..], b, after);
    }
  }

  // The list around position k.
  lemma SplitAt(ms: seq<Memb>, k: nat)
    requires Stretch(ms, null) && k < |ms| && Descending(Fds(ms))
    ensures Stretch(ms[..k], ms[k]) && ms[k].next == First(ms[k + 1..], null) && Stretch(ms[k + 1..], null)
    ensures ms[k] !in ms[..k] && ms[k] !in ms[k + 1..]
  {
    assert ms == ms[..k] + ms[k..];
    StretchSplit(ms[..k], ms[k..], null);
    assert ms[k..][1..] == ms[k + 1..];
    assert forall i :: 0 <= i < |ms| && i != k ==> Fds(ms)[i] != Fds(ms)[k];
  }

  // ms[k]->next = there: the list goes on with `after` instead.
  method LinkAt(ghost ms: seq<Memb>, ghost k: nat, here: Memb, there: Memb?, ghost after: seq<Memb>)
    requires Stretch(ms, null) && Descending(Fds(ms)) && k < |ms| && here == ms[k]
    requires Stretch(after, null) && there == First(after, null) && here !in after
    modifies here`next
    ensures Stretch(ms[..k] + ([here] + after), null) && here.next == there
  {
    hide Descending;
    SplitAt(ms, k);
    here.next := there;
    assert ([here] + after)[1..] == after;
    StretchConcat(ms[..k], [here] + after, null);
  }

  // memb->next = there, before a list.
  method LinkFront(memb: Memb, there: Memb?, ghost after: seq<Memb>)
    requires Stretch(after, null) && there == First(after, null) && memb !in after
    modifies memb`next
    ensures Stretch([memb] + after, null)
  {
    memb.next := there;
    assert ([memb] + after)[1..] == after;
  }

  // Where a descriptor goes: after all greater ones.
  function Rank(fds: seq<int>, fd: int): (n: nat)
    ensures n <= |fds| && (forall i :: 0 <= i < n ==> fds[i] > fd) && (n < |fds| ==> fds[n] <= fd)
  {
    if fds == [] || fds[0] <= fd then 0 else 1 + Rank(fds[1..], fd)
  }

  function Inserted<T>(s: seq<T>, n: nat, x: T): seq<T>
    requires n <= |s|
  {
    s[..n] + [x] + s[n..]
  }

  function Removed<T>(s: seq<T>, n: nat): seq<T>
    requires n < |s|
  {
    s[..n] + s[n + 1..]
  }

  lemma RankIs(fds: seq<int>, fd: int, n: nat)
    requires Descending(fds) && n <= |fds|
    requires (forall i :: 0 <= i < n ==> fds[i] > fd) && (n < |fds| ==> fds[n] <= fd)
    ensures Rank(fds, fd) == n
  {
    assert !(Rank(fds, fd) < n);
  }

  // The first member with fd or less, and the one before it.
  method SeekPlace(root: Memb?, fd: int, ghost ms: seq<Memb>) returns (prev: Memb?, here: Memb?)
    requires Listed(root, ms)
    ensures var n := Rank(Fds(ms), fd);
            here == First(ms[n..], null) && prev == if n == 0 then null else ms[n - 1]
  {
    prev, here := null, root;
    ghost var n := 0;
    while here != null && here.fd > fd
      invariant 0 <= n <= |ms| && here == First(ms[n..], null)
      invariant prev == if n == 0 then null else ms[n - 1]
      invariant forall i :: 0 <= i < n ==> ms[i].fd > fd
      decreases |ms| - n
    {
      SplitAt(ms, n);
      prev := here;
      here := here.next;
      n := n + 1;
    }
    RankIs(Fds(ms), fd, n);
  }

  lemma InsertedDescends(fds: seq<int>, fd: int)
    requires Descending(fds) && fd !in fds
    ensures Descending(Inserted(fds, Rank(fds, fd), fd))
  {
    hide Rank;
    var n := Rank(fds, fd);
    if n < |fds| { assert fds[n] in fds; }
    var all := Inserted(fds, n, fd);
    forall i, j | 0 <= i < j < |all| ensures all[i] > all[j] {
      var u, v := if i < n then i else i - 1, if j < n then j else j - 1;
      if i == n {
        assert all[j] == fds[v] <= fds[n];
      } else if j == n {
        assert all[i] == fds[u];
      } else {
        assert all[i] == fds[u] && all[j] == fds[v];
      }
    }
  }

  // list_insert
  method ListInsert(root: Memb?, memb: Memb, ghost ms: seq<Memb>) returns (r: Memb?)
    requires Listed(root, ms) && memb.fd !in Fds(ms) && memb !in ms
    modifies memb`next, ms
    ensures Listed(r, Inserted(ms, Rank(Fds(ms), memb.fd), memb))
  {
    hide Descending, Fds, Rank;
    ghost var n := Rank(Fds(ms), memb.fd);
    var prev, here := SeekPlace(root, memb.fd, ms);
    InsertedFds(ms, n, memb);
    InsertedDescends(Fds(ms), memb.fd);
    ghost var after := ms[n..];
    if n > 0 { TailStretch(ms, n - 1); }
    LinkFront(memb, here, after);
    if prev == null {
      assert [memb] + after == Inserted(ms, n, memb);
      return memb;
    }
    InsertedParts(ms, n, memb);
    LinkAt(ms, n - 1, prev, memb, [memb] + after);
    return root;
  }

  lemma InsertedParts(ms: seq<Memb>, n: nat, memb: Memb)
    requires 0 < n <= |ms|
    ensures ms[..n - 1] + ([ms[n - 1]] + ([memb] + ms[n..])) == Inserted(ms, n, memb)
    ensures Inserted(ms, n, memb)[0] == ms[0]
    ensures ms[n - 1] !in ms[n..] && ms[n - 1] != memb ==> ms[n - 1] !in [memb] + ms[n..]
  {
  }

  lemma TailStretch(ms: seq<Memb>, k: nat)
    requires Stretch(ms, null) && k < |ms| && Descending(Fds(ms))
    ensures Stretch(ms[k + 1..], null) && ms[k].next == First(ms[k + 1..], null) && ms[k] !in ms[k + 1..]
  {
    SplitAt(ms, k);
  }

  // Where a descriptor is, or the length of the list.
  function IndexOf(fds: seq<int>, fd: int): (n: nat)
    ensures n <= |fds| && fd !in fds[..n] && (n < |fds| ==> fds[n] == fd)
  {
    if fds == [] || fds[0] == fd then 0 else 1 + IndexOf(fds[1..], fd)
  }

  lemma IndexIs(fds: seq<int>, fd: int, n: nat)
    requires n <= |fds| && fd !in fds[..n] && (n < |fds| ==> fds[n] == fd)
    ensures IndexOf(fds, fd) == n
  {
    assert forall i :: 0 <= i < n ==> fds[..n][i] != fd;
    assert forall i :: 0 <= i < IndexOf(fds, fd) ==> fds[..IndexOf(fds, fd)][i] != fd;
  }

  // The member with that descriptor, and the one before it.
  method SeekFd(root: Memb?, fd: int, ghost ms: seq<Memb>) returns (prev: Memb?, here: Memb?)
    requires Listed(root, ms)
    ensures var n := IndexOf(Fds(ms), fd);
            here == First(ms[n..], null) && prev == if n == 0 then null else ms[n - 1]
  {
    prev, here := null, root;
    ghost var n := 0;
    while here != null && here.fd != fd
      invariant 0 <= n <= |ms| && here == First(ms[n..], null)
      invariant prev == if n == 0 then null else ms[n - 1]
      invariant forall i :: 0 <= i < n ==> Fds(ms)[i] != fd
      decreases |ms| - n
    {
      SplitAt(ms, n);
      prev := here;
      here := here.next;
      n := n + 1;
    }
    IndexIs(Fds(ms), fd, n);
  }

  // list_delete; freeing the member is left to the collector.
  method ListDelete(root: Memb?, fd: int, ghost ms: seq<Memb>) returns (r: Memb?)
    requires Listed(root, ms)
    modifies ms
    ensures var n := IndexOf(Fds(ms), fd);
            if n == |ms| then r == root && Listed(r, ms)
            else Listed(r, Removed(ms, n)) && ms[n].next == old(ms[n].next)
  {
    hide Descending, Fds, IndexOf, Stretch;
    ghost var n := IndexOf(Fds(ms), fd);
    var prev, here := SeekFd(root, fd, ms);
    if here == null {
      return root;
    }
    RemovedFds(ms, n);
    RemovedDescends(Fds(ms), n);
    TailStretch(ms, n);
    if prev == null {
      assert Removed(ms, n) == ms[1..];
      return root.next;
    }
    assert ms[n - 1 + 1..][1..] == ms[n + 1..];
    TailStretch(ms, n - 1);
    LinkAt(ms, n - 1, prev, here.next, ms[n + 1..]);
    assert ms[..n - 1] + ([prev] + ms[n + 1..]) == Removed(ms, n);
    return root;
  }

  lemma RemovedDescends(fds: seq<int>, n: nat)
    requires Descending(fds) && n < |fds|
    ensures Descending(Removed(fds, n))
  {
    var all := Removed(fds, n);
    forall i, j | 0 <= i < j < |all| ensures all[i] > all[j] {
      assert all[i] == fds[if i < n then i else i + 1];
      assert all[j] == fds[if j < n then j else j + 1];
    }
  }

  // ---- One wait, on descriptors ----

  // What select leaves in the set: the ready ones among the descriptors it looks at.
  function Selected(rfds: set<int>, nfds: int, ready: set<int>): set<int> {
    set f | f in rfds && (f in ready || f >= nfds)
  }

  // Members that stay: all but the ready ones whose callback said REM.
  function Survivors(fds: seq<int>, fired: set<int>, read: int -> int): seq<int> {
    if fds == [] then []
    else (if fds[0] in fired && HasRem(read(fds[0])) then [] else [fds[0]]) + Survivors(fds[1..], fired, read)
  }

  // Members whose callback is called, in order.
  function Called(fds: seq<int>, fired: set<int>): seq<int> {
    if fds == [] then []
    else (if fds[0] in fired then [fds[0]] else []) + Called(fds[1..], fired)
  }

  function Closed(called: seq<int>, read: int -> int): seq<int> {
    if called == [] then []
    else (if HasClose(read(called[0])) then [called[0]] else []) + Closed(called[1..], read)
  }

  // Bits set afterwards: all members' but those whose callback returned anything but OK.
  function Bits(fds: seq<int>, fired: set<int>, read: int -> int): set<int> {
    set f | f in fds && (f !in fired || read(f) == 0)
  }

  // Ready members still to be looked at.
  function Waiting(fds: seq<int>, fired: set<int>): set<int> {
    set f | f in fired && f in fds
  }

  lemma {:induction false} SurvivorsAppend(a: seq<int>, b: seq<int>, fired: set<int>, read: int -> int)
    ensures Survivors(a + b, fired, read) == Survivors(a, fired, read) + Survivors(b, fired, read)
    decreases |a|
  {
    hide HasRem, HasClose;
    if a == [] {
      assert a + b == b;
    } else {
      SurvivorsAppend(a[1..], b, fired, read);
      assert (a + b)[1..] == a[1..] + b && (a + b)[0] == a[0];
      var head := if a[0] in fired && HasRem(read(a[0])) then [] else [a[0]];
      var more, after := Survivors(a[1..], fired, read), Survivors(b, fired, read);
      assert head + (more + after) == (head + more) + after;
    }
  }

  lemma {:induction false} CalledAppend(a: seq<int>, b: seq<int>, fired: set<int>)
    ensures Called(a + b, fired) == Called(a, fired) + Called(b, fired)
    decreases |a|
  {
    hide HasRem, HasClose;
    if a == [] {
      assert a + b == b;
    } else {
      CalledAppend(a[1..], b, fired);
      assert (a + b)[1..] == a[1..] + b && (a + b)[0] == a[0];
      var head := if a[0] in fired then [a[0]] else [];
      assert head + (Called(a[1..], fired) + Called(b, fired)) == (head + Called(a[1..], fired)) + Called(b, fired);
    }
  }

  lemma {:induction false} ClosedAppend(a: seq<int>, b: seq<int>, read: int -> int)
    ensures Closed(a + b, read) == Closed(a, read) + Closed(b, read)
    decreases |a|
  {
    hide HasRem, HasClose;
    if a == [] {
      assert a + b == b;
    } else {
      ClosedAppend(a[1..], b, read);
      assert (a + b)[1..] == a[1..] + b && (a + b)[0] == a[0];
      var head := if HasClose(read(a[0])) then [a[0]] else [];
      assert head + (Closed(a[1..], read) + Closed(b, read)) == (head + Closed(a[1..], read)) + Closed(b, read);
    }
  }

  lemma {:induction false} SurvivorsExact(fds: seq<int>, fired: set<int>, read: int -> int)
    requires Descending(fds)
    ensures forall f :: f in Survivors(fds, fired, read) <==> f in fds && !(f in fired && HasRem(read(f)))
    ensures Descending(Survivors(fds, fired, read))
    decreases |fds|
  {
    if fds != [] {
      SurvivorsExact(fds[1..], fired, read);
      assert fds == [fds[0]] + fds[1..];
      var s := Survivors(fds[1..], fired, read);
      forall k | 0 <= k < |s| ensures s[k] < fds[0] {
        assert s[k] in s;
        var i :| 0 <= i < |fds[1..]| && fds[1..][i] == s[k];
        assert fds[0] > fds[i + 1];
      }
    }
  }

  // Closed are exactly those called whose result says CLOSE, REM or not.
  lemma {:induction false} ClosedExact(called: seq<int>, read: int -> int)
    requires Descending(called)
    ensures forall f :: f in Closed(called, read) <==> f in called && HasClose(read(f))
    ensures Descending(Closed(called, read))
    decreases |called|
  {
    if called != [] {
      ClosedExact(called[1..], read);
      assert called == [called[0]] + called[1..];
      var s := Closed(called[1..], read);
      forall k | 0 <= k < |s| ensures s[k] < called[0] {
        assert s[k] in s;
        var i :| 0 <= i < |called[1..]| && called[1..][i] == s[k];
        assert called[0] > called[i + 1];
      }
    }
  }

  lemma {:induction false} NoneCalled(fds: seq<int>)
    ensures Called(fds, {}) == []
  {
    if fds != [] { NoneCalled(fds[1..]); }
  }

  // Each ready member is called exactly once, and in descending order.
  lemma {:induction false} CalledExact(fds: seq<int>, fired: set<int>)
    requires Descending(fds)
    ensures forall f :: f in Called(fds, fired) <==> f in fds && f in fired
    ensures Descending(Called(fds, fired))
    decreases |fds|
  {
    if fds != [] {
      CalledExact(fds[1..], fired);
      assert fds == [fds[0]] + fds[1..];
      var s := Called(fds[1..], fired);
      forall k | 0 <= k < |s| ensures s[k] < fds[0] {
        assert s[k] in s;
        var i :| 0 <= i < |fds[1..]| && fds[1..][i] == s[k];
        assert fds[0] > fds[i + 1];
      }
    }
  }

  // The bit set is the set of members again after a wait exactly when every callback
  // that returned anything but OK said REM.
  lemma BitsAreMembersIff(fds: seq<int>, fired: set<int>, read: int -> int)
    requires Descending(fds)
    ensures Bits(fds, fired, read) == (set f | f in Survivors(fds, fired, read))
       <==> forall f :: f in fds && f in fired && read(f) != 0 ==> HasRem(read(f))
  {
    SurvivorsExact(fds, fired, read);
    var bits, members := Bits(fds, fired, read), set f | f in Survivors(fds, fired, read);
    if forall f :: f in fds && f in fired && read(f) != 0 ==> HasRem(read(f)) {
      assert forall f :: f in bits <==> f in members;
    } else {
      var f :| f in fds && f in fired && read(f) != 0 && !HasRem(read(f));
      assert f in members && f !in bits;
    }
  }

  // A member that said neither OK nor REM stays but sits out the next wait, whatever
  // happens in it, and is back in the set after it.
  lemma SitsOutOneWait(fds: seq<int>, fired: set<int>, read: int -> int, f: int,
                       nfds: int, ready: set<int>, read2: int -> int)
    requires Descending(fds) && f in fds && f in fired && read(f) != 0 && !HasRem(read(f))
    ensures var fds2, fired2 := Survivors(fds, fired, read), Selected(Bits(fds, fired, read), nfds, ready);
            && f in fds2 && f !in Called(fds2, fired2)
            && f in Survivors(fds2, fired2, read2) && f in Bits(fds2, fired2, read2)
  {
    SurvivorsExact(fds, fired, read);
    var fds2, fired2 := Survivors(fds, fired, read), Selected(Bits(fds, fired, read), nfds, ready);
    SurvivorsExact(fds2, fired2, read2);
    CalledExact(fds2, fired2);
  }

  datatype Select = Error(code: int) | Ready(fds: set<int>, count: int)

  // ---- Runs of add, rem and wait ----

  datatype Content = Content(fds: seq<int>, rfds: set<int>, cnt: int)

  const EMPTY := Content([], {}, 0)

  datatype Op = AddFd(fd: int) | RemFd(fd: int) | WaitFor(answer: Select, read: int -> int)

  // The ready members of a wait.
  function Fired(c: Content, op: Op): set<int> {
    if op.WaitFor? && op.answer.Ready? && c.fds != [] then c.rfds * op.answer.fds else {}
  }

  function Without(fds: seq<int>, fd: int): seq<int> {
    var n := IndexOf(fds, fd);
    if n < |fds| then Removed(fds, n) else fds
  }

  // What the operations make of the queue.
  function After(c: Content, op: Op): Content {
    match op
    case AddFd(fd) => Content(Inserted(c.fds, Rank(c.fds, fd), fd), c.rfds + {fd}, c.cnt + 1)
    case RemFd(fd) => if fd in c.rfds then Content(Without(c.fds, fd), c.rfds - {fd}, c.cnt - 1) else c
    case WaitFor(answer, read) =>
      if c.fds == [] || answer.Error? then c
      else Content(Survivors(c.fds, Fired(c, op), read), Bits(c.fds, Fired(c, op), read), c.cnt)
  }

  function AfterAll(c: Content, ops: seq<Op>): Content
    decreases |ops|
  {
    if ops == [] then c else After(AfterAll(c, ops[..|ops| - 1]), ops[|ops| - 1])
  }

  // No descriptor is added that is in the queue.
  ghost predicate AddsNew(c: Content, op: Op) {
    op.AddFd? ==> op.fd !in c.fds
  }

  // Every callback that returns anything but OK says REM.
  ghost predicate SaysRem(c: Content, op: Op) {
    forall f :: f in c.fds && f in Fired(c, op) && op.read(f) != 0 ==> HasRem(op.read(f))
  }

  // No callback says REM.
  ghost predicate KeepsAll(c: Content, op: Op) {
    forall f :: f in c.fds && f in Fired(c, op) ==> !HasRem(op.read(f))
  }

  ghost predicate Throughout(p: (Content, Op) -> bool, ops: seq<Op>) {
    forall i :: 0 <= i < |ops| ==> p(AfterAll(EMPTY, ops[..i]), ops[i])
  }

  ghost predicate Synced(c: Content) {
    c.rfds == set f | f in c.fds
  }

  ghost predicate Sound(c: Content) {
    Descending(c.fds) && (forall f :: f in c.rfds ==> f in c.fds) && c.cnt >= |c.fds|
  }

  // Members leave in a wait exactly when one of them says REM; the count, which a wait
  // does not touch, is then ahead by as many.
  lemma {:induction false} CountAheadIff(fds: seq<int>, fired: set<int>, read: int -> int)
    ensures |Survivors(fds, fired, read)| <= |fds|
    ensures |Survivors(fds, fired, read)| == |fds| <==> forall f :: f in fds && f in fired ==> !HasRem(read(f))
    decreases |fds|
  {
    if fds != [] {
      var f0, rest := fds[0], fds[1..];
      CountAheadIff(rest, fired, read);
      assert forall f :: f in fds <==> f == f0 || f in rest;
      assert f0 in fds;
    }
  }

  lemma InsertedMembers(fds: seq<int>, n: nat, fd: int)
    requires n <= |fds|
    ensures forall f :: f in Inserted(fds, n, fd) <==> f in fds || f == fd
  {
    assert fds == fds[..n] + fds[n..];
  }

  lemma RemovedMembers(fds: seq<int>, n: nat)
    requires n < |fds| && Descending(fds)
    ensures forall f :: f in Removed(fds, n) <==> f in fds && f != fds[n]
  {
    assert fds == fds[..n] + [fds[n]] + fds[n + 1..];
    forall i | 0 <= i < |Removed(fds, n)| ensures Removed(fds, n)[i] != fds[n] {
      assert Removed(fds, n)[i] == fds[if i < n then i else i + 1];
    }
  }

  lemma AddStep(c: Content, op: Op)
    requires Sound(c) && op.AddFd? && op.fd !in c.fds
    ensures Sound(After(c, op)) && (Synced(c) ==> Synced(After(c, op)))
    ensures After(c, op).cnt - |After(c, op).fds| == c.cnt - |c.fds|
  {
    hide Descending, Rank;
    InsertedDescends(c.fds, op.fd);
    InsertedMembers(c.fds, Rank(c.fds, op.fd), op.fd);
  }

  lemma RemStep(c: Content, op: Op)
    requires Sound(c) && op.RemFd?
    ensures Sound(After(c, op)) && (Synced(c) ==> Synced(After(c, op)))
    ensures After(c, op).cnt - |After(c, op).fds| == c.cnt - |c.fds|
  {
    hide Descending, IndexOf;
    if op.fd in c.rfds {
      var n := IndexOf(c.fds, op.fd);
      assert c.fds[..|c.fds|] == c.fds;
      RemovedDescends(c.fds, n);
      RemovedMembers(c.fds, n);
    }
  }

  lemma WaitStep(c: Content, op: Op)
    requires Sound(c) && op.WaitFor?
    ensures Sound(After(c, op)) && (Synced(c) && SaysRem(c, op) ==> Synced(After(c, op)))
    ensures After(c, op).cnt - |After(c, op).fds| >= c.cnt - |c.fds|
    ensures After(c, op).cnt - |After(c, op).fds| == c.cnt - |c.fds| <==> KeepsAll(c, op)
  {
    hide Descending, HasRem;
    if c.fds != [] && op.answer.Ready? {
      var fired := Fired(c, op);
      SurvivorsExact(c.fds, fired, op.read);
      BitsInSurvivors(c.fds, fired, op.read);
      CountAheadIff(c.fds, fired, op.read);
      BitsAreMembersIff(c.fds, fired, op.read);
    }
  }

  // One wait: those are called that are in the set and ready, those closed that say so,
  // those leave that say so, and the bits of all others that stay are set.
  ghost predicate WaitsRight(before: Content, after: Content, answer: Select, read: int -> int,
                             called: seq<int>, closed: seq<int>)
  {
    && Descending(called) && Descending(closed) && after.cnt == before.cnt
    && (forall f :: f in called <==> f in before.rfds && answer.Ready? && f in answer.fds)
    && (forall f :: f in closed <==> f in called && HasClose(read(f)))
    && (forall f :: f in after.fds <==> f in before.fds && !(f in called && HasRem(read(f))))
    && (answer.Ready? ==> forall f :: f in after.rfds <==> f in before.fds && (f !in called || read(f) == 0))
    && (answer.Error? ==> after == before)
  }

  lemma WaitMeans(c: Content, answer: Select, read: int -> int)
    requires Sound(c)
    ensures var op := WaitFor(answer, read);
            var called := Called(c.fds, Fired(c, op));
            WaitsRight(c, After(c, op), answer, read, called, Closed(called, read))
  {
    hide Descending, HasRem, HasClose, Called, Closed, Survivors, Fired;
    var op := WaitFor(answer, read);
    var fired := Fired(c, op);
    FiredMeans(c, op);
    var called := Called(c.fds, fired);
    CalledExact(c.fds, fired);
    ClosedExact(called, read);
    assert forall f :: f in called <==> f in fired;
    if c.fds != [] && answer.Ready? {
      SurvivorsExact(c.fds, fired, read);
      AfterWait(c, op);
    } else {
      NothingAfter(c, op);
    }
  }

  lemma FiredMeans(c: Content, op: Op)
    requires Sound(c) && op.WaitFor?
    ensures forall f :: f in Fired(c, op) <==> f in c.rfds && op.answer.Ready? && f in op.answer.fds
    ensures forall f :: f in Fired(c, op) ==> f in c.fds
  {
    hide Descending;
  }

  lemma AfterWait(c: Content, op: Op)
    requires op.WaitFor? && op.answer.Ready? && c.fds != []
    ensures var after := After(c, op);
            && after.fds == Survivors(c.fds, Fired(c, op), op.read) && after.cnt == c.cnt
            && forall f :: f in after.rfds <==> f in c.fds && (f !in Fired(c, op) || op.read(f) == 0)
  {
    hide Survivors, Fired;
  }

  lemma NothingAfter(c: Content, op: Op)
    requires op.WaitFor? && (op.answer.Error? || c.fds == [])
    ensures After(c, op) == c && Fired(c, op) == {}
  {
  }

  lemma OneStep(c: Content, op: Op)
    requires Sound(c) && AddsNew(c, op)
    ensures Sound(After(c, op)) && (Synced(c) && SaysRem(c, op) ==> Synced(After(c, op)))
    ensures After(c, op).cnt - |After(c, op).fds| >= c.cnt - |c.fds|
    ensures After(c, op).cnt - |After(c, op).fds| == c.cnt - |c.fds| <==> KeepsAll(c, op)
  {
    hide After, Sound, Synced;
    match op
    case AddFd(_) => AddStep(c, op);
    case RemFd(_) => RemStep(c, op);
    case WaitFor(_, _) => WaitStep(c, op);
  }

  // Over every run that adds no descriptor twice: the list is in descending order and
  // holds all of the set; set and list agree if all callbacks that return anything but OK
  // say REM; and the count is exact if and only if no callback has ever said REM.
  lemma {:induction false} AfterAnyRun(ops: seq<Op>)
    requires Throughout(AddsNew, ops)
    ensures var c := AfterAll(EMPTY, ops);
            && Sound(c)
            && (Throughout(SaysRem, ops) ==> Synced(c))
            && (c.cnt == |c.fds| <==> Throughout(KeepsAll, ops))
    decreases |ops|
  {
    hide After, AddsNew, SaysRem, KeepsAll;
    if ops == [] {
    } else {
      var n := |ops| - 1;
      var c := AfterAll(EMPTY, ops[..n]);
      ThroughoutSnoc(AddsNew, ops);
      ThroughoutSnoc(SaysRem, ops);
      ThroughoutSnoc(KeepsAll, ops);
      AfterAnyRun(ops[..n]);
      OneStep(c, ops[n]);
    }
  }

  lemma ThroughoutSnoc(p: (Content, Op) -> bool, ops: seq<Op>)
    requires ops != []
    ensures var n := |ops| - 1;
            Throughout(p, ops) <==> Throughout(p, ops[..n]) && p(AfterAll(EMPTY, ops[..n]), ops[n])
  {
    hide AfterAll;
    var init := ops[..|ops| - 1];
    forall i | 0 <= i < |init| ensures init[..i] == ops[..i] && init[i] == ops[i] {
    }
  }

  // ---- Who is in the queue, and whose bit is set ----

  // Some operation of the run did p, and none after it q.
  ghost predicate Since(p: (Content, Op) -> bool, q: (Content, Op) -> bool, ops: seq<Op>) {
    exists i :: 0 <= i < |ops| && p(AfterAll(EMPTY, ops[..i]), ops[i]) && NoneAfter(q, ops, i)
  }

  ghost predicate NoneAfter(q: (Content, Op) -> bool, ops: seq<Op>, i: nat) {
    forall j :: i < j < |ops| ==> !q(AfterAll(EMPTY, ops[..j]), ops[j])
  }

  lemma SinceNext(p: (Content, Op) -> bool, q: (Content, Op) -> bool, ops: seq<Op>)
    requires ops != []
    ensures var n := |ops| - 1;
            var c := AfterAll(EMPTY, ops[..n]);
            Since(p, q, ops) <==> p(c, ops[n]) || (Since(p, q, ops[..n]) && !q(c, ops[n]))
  {
    hide AfterAll;
    var n := |ops| - 1;
    var init := ops[..n];
    forall i | 0 <= i < n ensures init[..i] == ops[..i] && init[i] == ops[i] {
    }
    if p(AfterAll(EMPTY, ops[..n]), ops[n]) { assert NoneAfter(q, ops, n); }
    if Since(p, q, init) && !q(AfterAll(EMPTY, ops[..n]), ops[n]) {
      var i :| 0 <= i < n && p(AfterAll(EMPTY, init[..i]), init[i]) && NoneAfter(q, init, i);
      assert NoneAfter(q, ops, i);
    }
    if Since(p, q, ops) && !p(AfterAll(EMPTY, ops[..n]), ops[n]) {
      var i :| 0 <= i < |ops| && p(AfterAll(EMPTY, ops[..i]), ops[i]) && NoneAfter(q, ops, i);
      assert NoneAfter(q, init, i);
    }
  }

  function Adds(f: int): (Content, Op) -> bool {
    (c: Content, op: Op) => op.AddFd? && op.fd == f
  }

  // f is removed while its bit is set, or is found ready and its callback says REM.
  function Leaves(f: int): (Content, Op) -> bool {
    (c: Content, op: Op) =>
      f in c.rfds &&
      match op
      case AddFd(_) => false
      case RemFd(fd) => fd == f
      case WaitFor(answer, read) => answer.Ready? && f in answer.fds && HasRem(read(f))
  }

  // f is found ready and its callback returns anything but OK.
  predicate NotOk(f: int, c: Content, op: Op) {
    op.WaitFor? && op.answer.Ready? && f in c.rfds && f in op.answer.fds && op.read(f) != 0
  }

  // f is added, or is a member in a wait that does not fail and not found so.
  function SetsBit(f: int): (Content, Op) -> bool {
    (c: Content, op: Op) =>
      (op.AddFd? && op.fd == f) || (op.WaitFor? && op.answer.Ready? && f in c.fds && !NotOk(f, c, op))
  }

  function ClearsBit(f: int): (Content, Op) -> bool {
    (c: Content, op: Op) => (op.RemFd? && op.fd == f) || NotOk(f, c, op)
  }

  lemma OneMember(c: Content, op: Op, f: int)
    requires Sound(c) && AddsNew(c, op)
    ensures f in After(c, op).fds <==> Adds(f)(c, op) || (f in c.fds && !Leaves(f)(c, op))
    ensures f in After(c, op).rfds <==> SetsBit(f)(c, op) || (f in c.rfds && !ClearsBit(f)(c, op))
  {
    hide Descending, Rank, IndexOf, HasRem, HasClose;
    match op
    case AddFd(fd) => InsertedMembers(c.fds, Rank(c.fds, fd), fd);
    case RemFd(fd) =>
      if fd in c.rfds {
        assert c.fds[..|c.fds|] == c.fds;
        RemovedMembers(c.fds, IndexOf(c.fds, fd));
      }
    case WaitFor(answer, read) =>
      SurvivorsExact(c.fds, Fired(c, op), read);
  }

  // Over every run that adds no descriptor twice: a descriptor is in the queue exactly
  // when it has been added and has not left since; and its bit is set exactly when it has
  // been set and not cleared since.
  lemma {:induction false} MemberIff(ops: seq<Op>, f: int)
    requires Throughout(AddsNew, ops)
    ensures f in AfterAll(EMPTY, ops).fds <==> Since(Adds(f), Leaves(f), ops)
    ensures f in AfterAll(EMPTY, ops).rfds <==> Since(SetsBit(f), ClearsBit(f), ops)
    decreases |ops|
  {
    hide After, AddsNew, Since, Adds, Leaves, SetsBit, ClearsBit, Throughout;
    if ops == [] {
      NothingSince(Adds(f), Leaves(f));
      NothingSince(SetsBit(f), ClearsBit(f));
    } else {
      var n := |ops| - 1;
      ThroughoutSnoc(AddsNew, ops);
      MemberIff(ops[..n], f);
      AfterAnyRun(ops[..n]);
      OneMember(AfterAll(EMPTY, ops[..n]), ops[n], f);
      SinceNext(Adds(f), Leaves(f), ops);
      SinceNext(SetsBit(f), ClearsBit(f), ops);
    }
  }

  lemma NothingSince(p: (Content, Op) -> bool, q: (Content, Op) -> bool)
    ensures !Since(p, q, [])
  {
  }

  class Queue {
    var cnt: nat
    var rfds: set<int>
    var root: Memb?
    ghost var list: seq<Memb>
    ghost var dropped: nat  // members removed by waits, which cnt still counts

    // What every run of add, rem and wait keeps.
    ghost predicate Valid()
      reads this, list
    {
      && Listed(root, list)
      && (forall f :: f in rfds ==> f in Fds(list))
      && cnt == |list| + dropped
    }

    ghost function Now(): Content
      reads this, list
    {
      Content(Fds(list), rfds, cnt)
    }

    // The root's descriptor bounds the set: select looks at all of it.
    lemma RootBounds()
      requires Valid() && root != null
      ensures forall f :: f in rfds ==> f < root.fd + 1
    {
      forall f | f in rfds ensures f < root.fd + 1 {
        var i :| 0 <= i < |list| && Fds(list)[i] == f;
        assert i > 0 ==> Fds(list)[0] > Fds(list)[i];
      }
    }

    // evf_io_queue_new
    constructor ()
      ensures Valid() && list == [] && rfds == {} && cnt == 0 && dropped == 0
    {
      cnt, rfds, root, list, dropped := 0, {}, null, [], 0;
    }

    // evf_io_queue_add
    method Add(fd: int)
      requires Valid() && fd !in Fds(list)
      modifies this, list
      ensures Valid() && dropped == old(dropped)
      ensures Now() == old(After(Now(), AddFd(fd)))
      ensures |list| == |old(list)| + 1 && forall f :: f in Fds(list) <==> f in old(Fds(list)) || f == fd
      ensures rfds == old(rfds) + {fd} && cnt == old(cnt) + 1
    {
      hide Descending, Rank, Stretch;
      var memb := new Memb(fd);
      rfds := rfds + {fd};
      ghost var n := Rank(Fds(list), fd);
      root := ListInsert(root, memb, list);
      InsertedFds(list, n, memb);
      list := Inserted(list, n, memb);
      cnt := cnt + 1;
    }

    // evf_io_queue_rem: a member whose bit is not set is not removed.
    method Rem(fd: int)
      requires Valid()
      modifies this, list
      ensures Valid() && dropped == old(dropped)
      ensures Now() == old(After(Now(), RemFd(fd)))
      ensures fd in old(rfds) ==>
                && |list| == |old(list)| - 1 && (forall f :: f in Fds(list) <==> f in old(Fds(list)) && f != fd)
                && rfds == old(rfds) - {fd} && cnt == old(cnt) - 1
      ensures fd !in old(rfds) ==> Fds(list) == old(Fds(list)) && rfds == old(rfds) && cnt == old(cnt)
    {
      if fd in rfds {
        rfds := rfds - {fd};
        ghost var n := IndexOf(Fds(list), fd);
        root := ListDelete(root, fd, list);
        RemovedFds(list, n);
        list := Removed(list, n);
        cnt := cnt - 1;
      }
    }

    // evf_io_queue_wait, given what select answers and what each callback returns.
    method Wait(answer: Select, read: int -> int) returns (ret: int, called: seq<int>, closed: seq<int>)
      requires Valid() && (answer.Error? ==> answer.code < 0)
      modifies this, list
      ensures Valid() && dropped == old(dropped) + |old(list)| - |list|
      ensures Now() == old(After(Now(), WaitFor(answer, read)))
      ensures called == old(Called(Fds(list), Fired(Now(), WaitFor(answer, read)))) && closed == Closed(called, read)
      ensures WaitsRight(old(Now()), Now(), answer, read, called, closed)
      ensures ret == if old(list) == [] then 0 else if answer.Error? then answer.code else answer.count
    {
      hide Descending, WaitsRight;
      WaitMeans(Now(), answer, read);
      called, closed := [], [];
      NoneCalled(Fds(list));
      if root == null {
        return 0, [], [];
      }
      if answer.Error? {
        return answer.code, [], [];
      }
      ret := answer.count;
      RootBounds();
      ghost var fired := rfds * answer.fds;
      rfds := Selected(rfds, root.fd + 1, answer.fds);
      assert rfds == fired;
      called, closed := Dispatch(read);
    }

    // A member leaves in the course of a wait: cnt is not touched.
    method Drop(here: Memb, ghost kept: seq<Memb>, ghost rest: seq<Memb>)
      requires list == kept + rest && rest != [] && here == rest[0] && Listed(root, list)
      modifies this, list
      ensures list == kept + rest[1..] && Listed(root, list)
      ensures dropped == old(dropped) + 1 && cnt == old(cnt) && rfds == old(rfds)
      ensures here.next == old(here.next)
    {
      hide Descending;
      assert Fds(list) == Fds(kept) + Fds(rest);
      DescendingParts(Fds(kept), Fds(rest));
      IndexIs(Fds(list), here.fd, |kept|);
      root := ListDelete(root, here.fd, list);
      assert Removed(list, |kept|) == kept + rest[1..];
      list, dropped := kept + rest[1..], dropped + 1;
    }

    // One pass of the dispatch loop; next is where it goes on.
    method Visit(here: Memb, read: int -> int, ghost kept: seq<Memb>, ghost rest: seq<Memb>)
      returns (next: Memb?, fires: bool, closes: bool, ghost keptNow: seq<Memb>)
      requires list == kept + rest && rest != [] && here == rest[0] && Listed(root, list)
      requires cnt == |list| + dropped
      modifies this, list
      ensures next == First(rest[1..], null) && list == keptNow + rest[1..] && Listed(root, list)
      ensures cnt == |list| + dropped && cnt == old(cnt)
      ensures fires == (here.fd in old(rfds)) && closes == (fires && HasClose(read(here.fd)))
      ensures rfds == if fires && read(here.fd) != 0 then old(rfds) - {here.fd} else old(rfds) + {here.fd}
      ensures keptNow == if fires && HasRem(read(here.fd)) then kept else kept + [here]
    {
      hide Descending, Stretch, Fds;
      fires, closes, keptNow := false, false, kept + [here];
      assert rest == [here] + rest[1..] && kept + rest == keptNow + rest[1..];
      assert list[|kept| + 1..] == rest[1..];
      SplitAt(list, |kept|);
      if here.fd in rfds {
        fires := true;
        var retRead := read(here.fd);
        if retRead == 0 {
          return here.next, fires, closes, keptNow;
        }
        closes := HasClose(retRead);
        rfds := rfds - {here.fd};
        if HasRem(retRead) {
          keptNow := kept;
          Drop(here, kept, rest);
        }
      } else {
        rfds := rfds + {here.fd};
      }
      next := here.next;
    }

    // The dispatch loop of evf_io_queue_wait.
    method Dispatch(read: int -> int) returns (called: seq<int>, closed: seq<int>)
      requires Valid()
      modifies this, list
      ensures Valid() && cnt == old(cnt)
      ensures Fds(list) == old(Survivors(Fds(list), rfds, read))
      ensures called == old(Called(Fds(list), rfds)) && closed == Closed(called, read)
      ensures rfds == old(Bits(Fds(list), rfds, read))
    {
      hide Progress, Descending, Fds, HasRem, HasClose, Survivors, Called, Closed, Bits;
      FdsParts([], []);
      ghost var all, fired, kept, rest := Fds(list), rfds, [], list;
      called, closed := [], [];
      var here := root;
      Start(all, fired, read);
      while here != null
        invariant here == First(rest, null) && list == kept + rest && Listed(root, list)
        invariant forall i :: 0 <= i < |list| ==> list[i] in old(list)
        invariant Progress(all, Fds(rest), Fds(kept), fired, read, called, closed, rfds)
        invariant cnt == |list| + dropped && cnt == old(cnt)
        decreases |rest|
      {
        var fd := here.fd;
        ghost var tail, was, now := rest[1..], Fds(kept), list;
        Advance(all, Fds(rest), was, fired, read, called, closed, rfds);
        FdsParts(rest, kept + [here]);
        assert (kept + [here])[..|kept|] == kept && was + [] == was;
        var fires, closes;
        here, fires, closes, kept := Visit(here, read, kept, rest);
        called := called + if fires then [fd] else [];
        closed := closed + if closes then [fd] else [];
        rest := tail;
        assert forall i :: 0 <= i < |list| ==> list[i] in now;
      }
      assert kept + [] == kept;
      Finish(all, Fds(kept), fired, read, called, closed, rfds);
    }
  }

  // How far a wait has come: `rest` are the members still to be visited.
  ghost predicate Progress(all: seq<int>, rest: seq<int>, kept: seq<int>, fired: set<int>, read: int -> int,
                           called: seq<int>, closed: seq<int>, rfds: set<int>)
  {
    && |rest| <= |all| && Descending(all)
    && var done := all[..|all| - |rest|];
       && all == done + rest
       && kept == Survivors(done, fired, read)
       && called == Called(done, fired) && closed == Closed(called, read)
       && rfds == Bits(done, fired, read) + Waiting(rest, fired)
  }

  lemma FdsParts(a: seq<Memb>, b: seq<Memb>)
    ensures a == [] ==> Fds(a) == []
    ensures a != [] ==> Fds(a) != [] && Fds(a)[0] == a[0].fd && Fds(a)[1..] == Fds(a[1..])
    ensures b != [] ==> Fds(b) == Fds(b[..|b| - 1]) + [b[|b| - 1].fd]
  {
  }

  lemma Start(all: seq<int>, fired: set<int>, read: int -> int)
    requires Descending(all) && forall f :: f in fired ==> f in all
    ensures Progress(all, all, [], fired, read, [], [], fired)
  {
    NothingDone(fired, read);
    AllWaiting(all, fired);
    assert all[..0] == [] && [] + all == all;
  }

  lemma Advance(all: seq<int>, rest: seq<int>, kept: seq<int>, fired: set<int>, read: int -> int,
                called: seq<int>, closed: seq<int>, rfds: set<int>)
    requires Progress(all, rest, kept, fired, read, called, closed, rfds) && rest != []
    ensures var fd := rest[0];
            var fires := fd in rfds;
            Progress(all, rest[1..], kept + if fires && HasRem(read(fd)) then [] else [fd], fired, read,
                     called + if fires then [fd] else [],
                     closed + if fires && HasClose(read(fd)) then [fd] else [],
                     if fires && read(fd) != 0 then rfds - {fd} else rfds + {fd})
  {
    hide Survivors, Called, Closed, Bits, Waiting, Descending, HasRem, HasClose;
    var fd, done := rest[0], all[..|all| - |rest|];
    OneDone(done, fd, rest, kept, fired, read);
    assert all[..|all| - |rest[1..]|] == done + [fd];
    ClosedAppend(called, [fd], read);
    OnlyOne(fd, fired, read);
    assert closed + [] == closed && called + [] == called;
  }

  lemma Finish(all: seq<int>, kept: seq<int>, fired: set<int>, read: int -> int,
               called: seq<int>, closed: seq<int>, rfds: set<int>)
    requires Progress(all, [], kept, fired, read, called, closed, rfds)
    ensures kept == Survivors(all, fired, read)
    ensures called == Called(all, fired) && closed == Closed(called, read)
    ensures rfds == Bits(all, fired, read) && forall f :: f in rfds ==> f in kept
  {
    assert all[..|all|] == all;
    NothingDone(fired, read);
    BitsInSurvivors(all, fired, read);
  }

  // What one more member processed adds to each result.
  lemma OneDone(done: seq<int>, fd: int, rest: seq<int>, kept: seq<int>, fired: set<int>, read: int -> int)
    requires rest != [] && rest[0] == fd && Descending(done + rest) && kept == Survivors(done, fired, read)
    ensures fd !in done && fd !in kept && fd !in rest[1..]
    ensures done + rest == (done + [fd]) + rest[1..]
    ensures Survivors(done + [fd], fired, read)
         == kept + if fd in fired && HasRem(read(fd)) then [] else [fd]
    ensures Called(done + [fd], fired) == Called(done, fired) + if fd in fired then [fd] else []
    ensures Bits(done + [fd], fired, read)
         == Bits(done, fired, read) + if fd in fired && read(fd) != 0 then {} else {fd}
    ensures Waiting(rest, fired) == Waiting(rest[1..], fired) + if fd in fired then {fd} else {}
    ensures fd !in Bits(done, fired, read) && fd !in Waiting(rest[1..], fired)
  {
    hide Survivors, Called, HasRem;
    DescendingParts(done, rest);
    SurvivorsAppend(done, [fd], fired, read);
    CalledAppend(done, [fd], fired);
    SurvivorsExact(done, fired, read);
    assert rest == [fd] + rest[1..];
    OnlyOne(fd, fired, read);
    BitsSnoc(done, fd, fired, read);
    assert Called(done, fired) + [] == Called(done, fired) && kept + [] == kept;
  }

  lemma BitsSnoc(done: seq<int>, fd: int, fired: set<int>, read: int -> int)
    ensures Bits(done + [fd], fired, read)
         == Bits(done, fired, read) + if fd in fired && read(fd) != 0 then {} else {fd}
  {
  }

  lemma NothingDone(fired: set<int>, read: int -> int)
    ensures Survivors([], fired, read) == [] && Called([], fired) == [] && Closed([], read) == []
    ensures Bits([], fired, read) == {} && Waiting([], fired) == {}
  {
  }

  lemma AllWaiting(fds: seq<int>, fired: set<int>)
    requires forall f :: f in fired ==> f in fds
    ensures Waiting(fds, fired) == fired
  {
    forall f ensures f in Waiting(fds, fired) <==> f in fired {
    }
  }

  lemma BitsInSurvivors(fds: seq<int>, fired: set<int>, read: int -> int)
    requires Descending(fds)
    ensures forall f :: f in Bits(fds, fired, read) ==> f in Survivors(fds, fired, read)
  {
    SurvivorsExact(fds, fired, read);
    forall f | f in Bits(fds, fired, read) ensures f in Survivors(fds, fired, read) {
      assert f in fds && !(f in fired && HasRem(read(f)));
    }
  }

  lemma OnlyOne(fd: int, fired: set<int>, read: int -> int)
    ensures Survivors([fd], fired, read) == if fd in fired && HasRem(read(fd)) then [] else [fd]
    ensures Called([fd], fired) == if fd in fired then [fd] else []
    ensures Closed([fd], read) == if HasClose(read(fd)) then [fd] else []
  {
    assert [fd][1..] == [];
  }

  lemma DescendingParts(a: seq<int>, b: seq<int>)
    requires Descending(a + b) && b != []
    ensures Descending(a) && b[0] !in a && b[0] !in b[1..]
  {
    var all := a + b;
    forall i, j | 0 <= i < j < |a| ensures a[i] > a[j] {
      assert all[i] == a[i] && all[j] == a[j];
    }
    forall i | 0 <= i < |a| ensures a[i] != b[0] {
      assert all[i] == a[i] && all[|a|] == b[0];
    }
    forall j | 0 <= j < |b[1..]| ensures b[1..][j] != b[0] {
      assert all[|a| + 1 + j] == b[1..][j] && all[|a|] == b[0];
    }
  }

  lemma InsertedFds(ms: seq<Memb>, n: nat, m: Memb)
    requires n <= |ms|
    ensures Fds(Inserted(ms, n, m)) == Inserted(Fds(ms), n, m.fd)
    ensures forall f :: f in Fds(Inserted(ms, n, m)) <==> f in Fds(ms) || f == m.fd
  {
    var fds, all := Fds(ms), Fds(Inserted(ms, n, m));
    assert all[n] == m.fd;
    forall f | f in fds ensures f in all {
      var i :| 0 <= i < |fds| && fds[i] == f;
      assert all[if i < n then i else i + 1] == f;
    }
  }

  lemma RemovedFds(ms: seq<Memb>, n: nat)
    requires Descending(Fds(ms)) && n < |ms|
    ensures Fds(Removed(ms, n)) == Removed(Fds(ms), n)
    ensures forall f :: f in Fds(ms) && f != ms[n].fd ==> f in Fds(Removed(ms, n))
    ensures ms[n].fd !in Fds(Removed(ms, n))
  {
    var fds, all := Fds(ms), Fds(Removed(ms, n));
    forall f | f in fds && f != fds[n] ensures f in all {
      var i :| 0 <= i < |fds| && fds[i] == f;
      assert all[if i < n then i else i - 1] == f;
    }
    forall i | 0 <= i < |all| ensures all[i] != fds[n] {
      assert all[i] == fds[if i < n then i else i + 1];
    }
  }
}
