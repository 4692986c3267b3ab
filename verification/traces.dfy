/**
 Runs of the engine over arbitrary interleavings of timer ticks, mutation
 batches and the close timer, and what holds of every run: the latch is
 never reset, at most one activation and at most one close happen, and a
 cleared polling interval stays cleared.
 */
module Traces {
  import opened Strategy
  import opened Engine

  /** The effects are grouped into the three things the page may observe. */
  datatype Kind = ActivationKind | SchedulingKind | RequestKind

  function KindOf(e: Effect): (r: Kind)
  {
    match e
    case Activate(_) => ActivationKind
    case ScheduleClose => SchedulingKind
    case RequestClose => RequestKind
  }

  function Count(effects: seq<Effect>, k: Kind): (r: nat)
    decreases |effects|
  {
    if effects == [] then 0
    else (if KindOf(effects[0]) == k then 1 else 0) + Count(effects[1..], k)
  }

  /** Runs the events in order from `s`, collecting every effect. */
  function Run(s: State, events: seq<Event>): (r: Transition)
    decreases |events|
  {
    if events == [] then Transition(s, [])
    else
      var first := Step(s, events[0]);
      var rest := Run(first.state, events[1..]);
      Transition(rest.state, first.effects + rest.effects)
  }

  /** The invariant of reachable states: no close before the latch is set. */
  predicate Consistent(s: State)
  {
    !s.triggered ==> s.close == NotScheduled
  }

  /** How far the delayed close has progressed. */
  function CloseRank(c: CloseState): (r: nat)
  {
    match c
    case NotScheduled => 0
    case Pending => 1
    case Fired => 2
  }

  /** 1 when the latch goes from unset to set between `s` and `t`. */
  function Latched(s: State, t: State): (r: nat)
  {
    if !s.triggered && t.triggered then 1 else 0
  }

  /** 1 when the close progresses from below `level` to at least `level`. */
  function Reached(s: State, t: State, level: nat): (r: nat)
  {
    if CloseRank(s.close) < level <= CloseRank(t.close) then 1 else 0
  }

  // ---------------------------------------------------------------------------
  // Counting

  lemma {:induction false} CountAppend(a: seq<Effect>, b: seq<Effect>, k: Kind)
    ensures Count(a + b, k) == Count(a, k) + Count(b, k)
    decreases |a|
  {
    if a == [] {
      assert a + b == b;
    } else {
      assert (a + b)[1..] == a[1..] + b;
      CountAppend(a[1..], b, k);
    }
  }

  lemma CountPair(x: Effect, y: Effect, k: Kind)
    ensures Count([x, y], k) == (if KindOf(x) == k then 1 else 0) + (if KindOf(y) == k then 1 else 0)
  {
    assert [x, y][1..] == [y];
    assert [y][1..] == [];
    assert Count([y], k) == (if KindOf(y) == k then 1 else 0) + Count([], k);
  }

  // ---------------------------------------------------------------------------
  // One step

  /** The accounting of one transition from `s`: the invariant is kept, the
      latch is never cleared and the close never undone, and there is one
      activation exactly when the latch is set, one schedule exactly when the
      close becomes pending and one request exactly when it fires. */
  ghost predicate Accounted(s: State, t: Transition)
  {
    && Consistent(t.state)
    && (s.triggered ==> t.state.triggered)
    && CloseRank(s.close) <= CloseRank(t.state.close)
    && Count(t.effects, ActivationKind) == Latched(s, t.state)
    && Count(t.effects, SchedulingKind) == Reached(s, t.state, 1)
    && Count(t.effects, RequestKind) == Reached(s, t.state, 2)
  }

  lemma AttemptAccounts(s: State, page: Page)
    requires Consistent(s)
    ensures Accounted(s, TryTriggerOnce(s, page))
  {
    var t := TryTriggerOnce(s, page);
    if |t.effects| == 1 {
      assert t.effects[1..] == [];
    } else if |t.effects| == 2 {
      CountPair(t.effects[0], ScheduleClose, ActivationKind);
      CountPair(t.effects[0], ScheduleClose, SchedulingKind);
      CountPair(t.effects[0], ScheduleClose, RequestKind);
    }
  }

  /** Each step keeps the invariant, never clears the latch or undoes the
      close, activates exactly when it sets the latch, schedules exactly when
      the close becomes pending and requests exactly when it fires. */
  lemma StepAccounts(s: State, e: Event)
    requires Consistent(s)
    ensures Accounted(s, Step(s, e))
  {
    match e
    case Tick(page) =>
      if s.timerLive && !s.triggered && s.attempts < MAX_ATTEMPTS {
        AttemptAccounts(s, page);
      }
    case Mutations(page, records) =>
      if s.observerLive && !s.triggered && HasAddedNodes(records) {
        AttemptAccounts(s, page);
      }
    case CloseTimer =>
      if s.close == Pending {
        assert [RequestClose][1..] == [];
      }
  }

  // ---------------------------------------------------------------------------
  // Whole runs

  /** Over any run from a consistent state, the latch is never reset, the
      close never goes back, and each kind of effect occurs exactly as often
      as its state change: at most once. */
  lemma {:induction false} RunAccounts(s: State, events: seq<Event>)
    requires Consistent(s)
    ensures Accounted(s, Run(s, events))
    decreases |events|
  {
    if events != [] {
      var first := Step(s, events[0]);
      var rest := Run(first.state, events[1..]);
      StepAccounts(s, events[0]);
      RunAccounts(first.state, events[1..]);
      CountAppend(first.effects, rest.effects, ActivationKind);
      CountAppend(first.effects, rest.effects, SchedulingKind);
      CountAppend(first.effects, rest.effects, RequestKind);
    }
  }

  /** The page-level guarantee: after the engine starts, any interleaving of
      ticks, mutation batches and the close timer produces at most one
      activation, at most one scheduled close, and at most one close request;
      there is an activation exactly when the latch ends up set, there are no
      more scheduled closes than activations, and no more close requests than
      scheduled closes. */
  lemma AtMostOnce(observerAvailable: bool, autoCloseTab: bool, events: seq<Event>)
    ensures var t := Run(Start(observerAvailable, autoCloseTab), events);
      && Count(t.effects, ActivationKind) <= 1
      && (Count(t.effects, ActivationKind) == 1 <==> t.state.triggered)
      && Count(t.effects, SchedulingKind) <= Count(t.effects, ActivationKind)
      && Count(t.effects, RequestKind) <= Count(t.effects, SchedulingKind)
  {
    RunAccounts(Start(observerAvailable, autoCloseTab), events);
  }

  /** Once the interval is cleared it never runs again, whatever happens. */
  lemma {:induction false} ClearedTimerStaysCleared(s: State, events: seq<Event>)
    requires !s.timerLive
    ensures !Run(s, events).state.timerLive
    decreases |events|
  {
    if events != [] {
      ClearedTimerStaysCleared(Step(s, events[0]).state, events[1..]);
    }
  }

  /** The observer is never disconnected: its registration survives every run. */
  lemma {:induction false} ObserverStaysRegistered(s: State, events: seq<Event>)
    ensures Run(s, events).state.observerLive == s.observerLive
    decreases |events|
  {
    if events != [] {
      ObserverStaysRegistered(Step(s, events[0]).state, events[1..]);
    }
  }

  // ---------------------------------------------------------------------------
  // The attempt budget

  /** One tick per page, in order: the page may differ from tick to tick. */
  function TicksOver(pages: seq<Page>): (r: seq<Event>)
  {
    seq(|pages|, k requires 0 <= k < |pages| => Tick(pages[k]))
  }

  /** A page on which no strategy can succeed. */
  ghost predicate Barren(page: Page)
  {
    !HasMatch(page.candidates) && page.component.None?
  }

  ghost predicate AllBarren(pages: seq<Page>)
  {
    forall k :: 0 <= k < |pages| ==> Barren(pages[k])
  }

  /** While every page is barren, ticks from a live untriggered state count
      attempts up to the budget, the tick after that clears the interval, and
      nothing is ever activated. */
  lemma {:induction false} PollingExhausts(s: State, pages: seq<Page>)
    requires AllBarren(pages) && |pages| == MAX_ATTEMPTS - s.attempts + 1
    requires !s.triggered && s.timerLive && s.attempts <= MAX_ATTEMPTS
    ensures var t := Run(s, TicksOver(pages));
      && t.effects == []
      && t.state == s.(attempts := MAX_ATTEMPTS, timerLive := false)
    decreases MAX_ATTEMPTS - s.attempts
  {
    var events := TicksOver(pages);
    var next := Step(s, events[0]).state;
    if s.attempts == MAX_ATTEMPTS {
      assert events[1..] == [];
    } else {
      assert Barren(pages[0]);
      assert !HasMatch(pages[0].candidates);
      assert next == s.(attempts := s.attempts + 1);
      assert events[1..] == TicksOver(pages[1..]);
      PollingExhausts(next, pages[1..]);
    }
  }

  /** From the start, 41 ticks on barren pages make exactly 40 attempts and
      leave the interval cleared; it never ticks again. */
  lemma BudgetEndsPolling(observerAvailable: bool, autoCloseTab: bool, pages: seq<Page>, later: seq<Event>)
    requires AllBarren(pages) && |pages| == MAX_ATTEMPTS + 1
    ensures var t := Run(Start(observerAvailable, autoCloseTab), TicksOver(pages));
      && t.effects == []
      && t.state.attempts == MAX_ATTEMPTS
      && !t.state.timerLive
      && !Run(t.state, later).state.timerLive
  {
    var s := Start(observerAvailable, autoCloseTab);
    PollingExhausts(s, pages);
    ClearedTimerStaysCleared(Run(s, TicksOver(pages)).state, later);
  }

  /** Attempts made by the observer use up the polling budget: with one
      attempt left, a failing mutation-driven attempt makes the next tick
      clear the interval without attempting. */
  lemma ObserverAttemptsSpendBudget(s: State, page: Page, records: seq<MutationRecord>, tickPage: Page)
    requires !s.triggered && s.timerLive && s.observerLive && s.attempts == MAX_ATTEMPTS - 1
    requires Barren(page) && HasAddedNodes(records)
    ensures var t := Run(s, [Mutations(page, records), Tick(tickPage)]);
      && t.effects == []
      && t.state.attempts == MAX_ATTEMPTS
      && !t.state.timerLive
  {
    assert !HasMatch(page.candidates);
    var events := [Mutations(page, records), Tick(tickPage)];
    var mid := OnMutations(s, page, records);
    assert mid == Transition(s.(attempts := MAX_ATTEMPTS), []);
    assert events[1..] == [Tick(tickPage)];
    assert Run(mid.state, [Tick(tickPage)]) == Transition(mid.state.(timerLive := false), []);
  }

  /** The budget does not bind the observer: after polling has given up on
      barren pages, a mutation batch that adds nodes and brings a qualifying
      button still clicks it. */
  lemma ObserverOutlivesBudget(autoCloseTab: bool, barren: seq<Page>, page: Page, i: nat, records: seq<MutationRecord>)
    ensures AllBarren(barren) && |barren| == MAX_ATTEMPTS + 1 ==>
      var exhausted := Run(Start(true, autoCloseTab), TicksOver(barren)).state;
      && !exhausted.timerLive
      && (IsFirstMatch(page.candidates, i) && HasAddedNodes(records) ==>
            Activate(Click(i)) in Run(exhausted, [Mutations(page, records)]).effects)
  {
    if AllBarren(barren) && |barren| == MAX_ATTEMPTS + 1 {
      var s := Start(true, autoCloseTab);
      PollingExhausts(s, barren);
      var exhausted := Run(s, TicksOver(barren)).state;
      if IsFirstMatch(page.candidates, i) && HasAddedNodes(records) {
        AttemptClicksFirstMatch(exhausted, page, i);
        assert Run(exhausted, [Mutations(page, records)]).effects == TryTriggerOnce(exhausted, page).effects + [];
      }
    }
  }

  /** The interval is cleared lazily: the tick that activates leaves it live,
      and the next tick clears it without attempting. */
  lemma TimerClearedOnNextTick(s: State, page: Page, later: Page)
    ensures !s.triggered && s.timerLive && s.attempts < MAX_ATTEMPTS
            && (HasMatch(page.candidates) || page.component.Some?) ==>
      var first := OnTick(s, page).state;
      && first.triggered && first.timerLive
      && OnTick(first, later) == Transition(first.(timerLive := false), [])
  {
  }

  /** The eligibility rule as a page sees it: on a successful attempt with
      auto-close on, a tab with one history entry gets a close scheduled, a
      tab with two does not. */
  lemma CloseDependsOnHistory(s: State, cs: seq<Candidate>, comp: Option<Component>)
    ensures !s.triggered && s.autoCloseTab && (HasMatch(cs) || comp.Some?) ==>
              ScheduleClose in TryTriggerOnce(s, Page(cs, comp, 1)).effects
    ensures ScheduleClose !in TryTriggerOnce(s, Page(cs, comp, 2)).effects
  {
  }

  /** An eligible tab's successful click attempt activates, then schedules
      the close. */
  lemma ClickThenSchedule(s: State, page: Page, i: nat)
    requires !s.triggered && s.autoCloseTab && page.historyLength <= 1
    requires IsFirstMatch(page.candidates, i)
    ensures TryTriggerOnce(s, page).effects == [Activate(Click(i)), ScheduleClose]
    ensures TryTriggerOnce(s, page).state.close == Pending
  {
    assert Resolve(page) == Activated(Click(i));
    var closing := ScheduleAutoCloseIfNeeded(s.(attempts := s.attempts + 1).(triggered := true), page);
    assert closing.effects == [ScheduleClose];
    assert TryTriggerOnce(s, page).effects == [Activate(Click(i))] + closing.effects;
  }

  /** A run of two events is the first step followed by the second. */
  lemma RunPair(s: State, e1: Event, e2: Event)
    ensures var first := Step(s, e1);
      Run(s, [e1, e2]).effects == first.effects + Step(first.state, e2).effects
  {
    var first := Step(s, e1);
    assert [e1, e2][1..] == [e2];
    assert [e2][1..] == [];
    assert Run(first.state, [e2]).effects == Step(first.state, e2).effects + [];
  }

  /** With the shipped setting, the first tick on a tab with a single history
      entry that finds a qualifying button clicks it and schedules the close,
      and the close timer then requests the close once. */
  lemma ShippedSettingClosesFreshTab(observerAvailable: bool, page: Page, i: nat)
    requires IsFirstMatch(page.candidates, i) && page.historyLength <= 1
    ensures Run(Start(observerAvailable, AUTO_CLOSE_TAB), [Tick(page), CloseTimer]).effects
         == [Activate(Click(i)), ScheduleClose, RequestClose]
  {
    var s := Start(observerAvailable, AUTO_CLOSE_TAB);
    assert OnTick(s, page) == TryTriggerOnce(s, page);
    ClickThenSchedule(s, page, i);
    RunPair(s, Tick(page), CloseTimer);
  }
}
