// src/filters/filter_to_handle.c: redirects events of one type and code to a handle.
module FilterToHandle {
  import opened Events

  // ev_flag is not set when the filter is allocated.
  datatype Flag = Unset | Set(on: bool)

  // The filters behind the handle. The events they are lent may come back rewritten:
  // reply(n, e) is what e, the n-th event sent, has become. Chain.ComesBack shows that
  // chains of filters keep the law.
  datatype Answers = Answers(rewrites: bool, reply: (nat, Event) -> Event)
  {
    ghost predicate Lawful() {
      forall n: nat, e: Event :: MayBecome(e, reply(n, e), rewrites)
    }
  }

  const ECHO: (nat, Event) -> Event := (n: nat, e: Event) => e

  type Receiver = r: Answers | r.Lawful() witness Answers(false, ECHO)

  // Filters that may rewrite events, and never do.
  function Idle(rewrites: bool): Receiver {
    Answers(rewrites, ECHO)
  }

  datatype State = State(kind: int, code: int, syncFlag: bool, evFlag: Flag, sent: seq<Event>, receiver: Receiver)
  {
    predicate Redirects(e: Event) {
      e.kind == kind && e.code == code
    }

    predicate Sends(e: Event) {
      (IsNull(e) && syncFlag) || Redirects(e)
    }

    // What the event has become when the handle is done with it.
    function Returned(e: Event): Event {
      if Sends(e) then receiver.reply(|sent|, e) else e
    }
  }

  function Init(kind: int, code: int, receiver: Receiver): State {
    State(kind, code, false, Unset, [], receiver)
  }

  lemma ReturnedLaw(s: State, e: Event)
    ensures MayBecome(e, s.Returned(e), s.receiver.rewrites && s.Redirects(e))
  {
    assert s.receiver.Lawful();
    assert MayBecome(e, s.receiver.reply(|s.sent|, e), s.receiver.rewrites);
  }

  // What reaches the handle is appended to `sent`; the result is what reaches the
  // next filter. A sync handed on is as it was: the handle gives syncs back unchanged.
  function Step(s: State, e: Event): (State, seq<Event>) {
    if IsNull(e) && s.syncFlag then
      (s.(sent := s.sent + [e]), if s.evFlag == Set(true) then [e] else [])
    else if s.Redirects(e) then
      (s.(sent := s.sent + [e], syncFlag := true, evFlag := Set(false)), [])
    else
      (s.(evFlag := Set(true)), [e])
  }

  predicate Matches(kind: int, code: int, e: Event) {
    e.kind == kind && e.code == code
  }

  // A redirected event is among the first n.
  ghost predicate Redirected(kind: int, code: int, es: seq<Event>, n: nat)
    requires n <= |es|
  {
    exists j :: 0 <= j < n && Matches(kind, code, es[j])
  }

  // Event i is a zero sync that follows a redirected event: it is copied.
  ghost predicate Copied(kind: int, code: int, es: seq<Event>, i: nat)
    requires i < |es|
  {
    IsNull(es[i]) && Redirected(kind, code, es, i)
  }

  ghost predicate AllCopied(kind: int, code: int, es: seq<Event>, from: nat, to: nat)
    requires from <= to <= |es|
  {
    forall k :: from <= k < to ==> Copied(kind, code, es, k)
  }

  // The last of the first n events that is not itself a copied sync was passed on.
  ghost predicate LastPassed(kind: int, code: int, es: seq<Event>, n: nat)
    requires n <= |es|
  {
    exists j :: 0 <= j < n && !Copied(kind, code, es, j) && !Matches(kind, code, es[j])
                && AllCopied(kind, code, es, j + 1, n)
  }

  // What the flags mean before event n.
  ghost predicate FlagsMean(s: State, kind: int, code: int, es: seq<Event>, n: nat)
    requires n <= |es|
  {
    && s.kind == kind && s.code == code
    && (s.syncFlag <==> Redirected(kind, code, es, n))
    && (s.evFlag == Unset <==> n == 0)
    && (s.evFlag == Set(true) <==> LastPassed(kind, code, es, n))
  }

  lemma LastPassedNext(kind: int, code: int, es: seq<Event>, i: nat)
    requires i < |es|
    ensures LastPassed(kind, code, es, i + 1)
       <==> if Copied(kind, code, es, i) then LastPassed(kind, code, es, i)
            else !Matches(kind, code, es[i])
  {
    if Copied(kind, code, es, i) {
      if LastPassed(kind, code, es, i) {
        var j :| 0 <= j < i && !Copied(kind, code, es, j) && !Matches(kind, code, es[j])
                 && AllCopied(kind, code, es, j + 1, i);
        assert AllCopied(kind, code, es, j + 1, i + 1);
      }
      if LastPassed(kind, code, es, i + 1) {
        var j :| 0 <= j < i + 1 && !Copied(kind, code, es, j) && !Matches(kind, code, es[j])
                 && AllCopied(kind, code, es, j + 1, i + 1);
        assert AllCopied(kind, code, es, j + 1, i);
      }
    } else {
      assert AllCopied(kind, code, es, i + 1, i + 1);
      if LastPassed(kind, code, es, i + 1) {
        var j :| 0 <= j < i + 1 && !Copied(kind, code, es, j) && !Matches(kind, code, es[j])
                 && AllCopied(kind, code, es, j + 1, i + 1);
        assert j == i;
      }
    }
  }

  lemma {:induction false} FlagsTracked(kind: int, code: int, receiver: Receiver, es: seq<Event>, n: nat)
    requires n <= |es|
    ensures FlagsMean(Before(Step, Init(kind, code, receiver), es, n), kind, code, es, n)
  {
    if n == 0 {
      assert es[..0] == [];
    } else {
      FlagsTracked(kind, code, receiver, es, n - 1);
      BeforeNext(Step, Init(kind, code, receiver), es, n - 1);
      LastPassedNext(kind, code, es, n - 1);
    }
  }

  // Where event i goes, on every run: to the handle exactly when it is redirected or a
  // copied sync, and to the next filter exactly when it is neither, or it is a copied
  // sync and the last event that was not one was passed on.
  lemma Routing(kind: int, code: int, receiver: Receiver, es: seq<Event>, i: nat)
    requires i < |es|
    ensures var s := Before(Step, Init(kind, code, receiver), es, i);
            var (s', out) := Step(s, es[i]);
            var copied := Copied(kind, code, es, i);
            && s'.sent == s.sent + (if copied || Matches(kind, code, es[i]) then [es[i]] else [])
            && out == if (if copied then LastPassed(kind, code, es, i) else !Matches(kind, code, es[i]))
                      then [es[i]] else []
  {
    FlagsTracked(kind, code, receiver, es, i);
  }

  // ev_flag has been written before every point that reads it.
  lemma FlagSetBeforeRead(kind: int, code: int, receiver: Receiver, es: seq<Event>, i: nat)
    requires i < |es|
    ensures var s := Before(Step, Init(kind, code, receiver), es, i);
            IsNull(es[i]) && s.syncFlag ==> s.evFlag != Unset
  {
    FlagsTracked(kind, code, receiver, es, i);
  }

  function Kept(kind: int, code: int): Event -> bool {
    (e: Event) => !IsNull(e) && !Matches(kind, code, e)
  }

  function Diverted(kind: int, code: int): Event -> bool {
    (e: Event) => !IsNull(e) && Matches(kind, code, e)
  }

  function NotNull(): Event -> bool {
    (e: Event) => !IsNull(e)
  }

  lemma StepLossless(s: State, e: Event)
    ensures var (s', out) := Step(s, e);
            && s'.kind == s.kind && s'.code == s.code
            && Filter(NotNull(), out) == Filter(Kept(s.kind, s.code), [e])
            && Filter(NotNull(), s'.sent) == Filter(NotNull(), s.sent) + Filter(Diverted(s.kind, s.code), [e])
  {
    FilterAppend(NotNull(), s.sent, [e]);
    FilterOne(NotNull(), e);
    FilterOne(Kept(s.kind, s.code), e);
    FilterOne(Diverted(s.kind, s.code), e);
  }

  // Zero syncs aside, every event goes to exactly one of the two outputs, in order.
  lemma {:induction false} Lossless(s: State, es: seq<Event>)
    ensures var (s', out) := Run(Step, s, es);
            && s'.kind == s.kind && s'.code == s.code
            && Filter(NotNull(), out) == Filter(Kept(s.kind, s.code), es)
            && Filter(NotNull(), s'.sent) == Filter(NotNull(), s.sent) + Filter(Diverted(s.kind, s.code), es)
    decreases |es|
  {
    hide Step, Filter, Kept, Diverted, NotNull;
    if es == [] {
      FilterNothing(NotNull());
      FilterNothing(Kept(s.kind, s.code));
      FilterNothing(Diverted(s.kind, s.code));
    } else {
      var init, e := es[..|es| - 1], es[|es| - 1];
      Lossless(s, init);
      var (s1, out1) := Run(Step, s, init);
      StepLossless(s1, e);
      FilterAppend(NotNull(), out1, Step(s1, e).1);
      FilterAppend(Kept(s.kind, s.code), init, [e]);
      FilterAppend(Diverted(s.kind, s.code), init, [e]);
      assert es == init + [e];
    }
  }
}
