/**
 The detection-and-trigger engine of the content script as a state machine.

 Its state is the latch `triggered` (the script's `alreadyTriggered`), the
 attempt counter, whether the polling interval is still live, whether the
 mutation observer is registered, and the progress of the delayed close.
 Each continuation the browser runs is a pure step that returns the next
 state and the effects the continuation performed, in order.
 */
module Engine {
  import opened Strategy

  /** Polling gives up once this many attempts have been made. */
  const MAX_ATTEMPTS: nat := 40

  /** The shipped setting of the auto-close switch. */
  const AUTO_CLOSE_TAB: bool := true

  /** The delayed close: not scheduled, waiting for its timer, or done. */
  datatype CloseState = NotScheduled | Pending | Fired

  datatype State = State(
    triggered: bool,
    attempts: nat,
    timerLive: bool,
    observerLive: bool,
    close: CloseState,
    autoCloseTab: bool)

  /** What a continuation does to the outside world. */
  datatype Effect =
    | Activate(via: Activation)  // a click on a button or the slowDownload event
    | ScheduleClose              // the 10-second close timer is set
    | RequestClose               // the close timer fires and asks to close the tab

  datatype Transition = Transition(state: State, effects: seq<Effect>)

  /** One record of a mutation batch, reduced to its number of added nodes. */
  datatype MutationRecord = MutationRecord(addedNodes: nat)

  /** The continuations the browser may run once the engine has started. */
  datatype Event =
    | Tick(page: Page)
    | Mutations(page: Page, records: seq<MutationRecord>)
    | CloseTimer

  /** The initial transition: the interval timer is set, and the mutation
      observer is registered when the environment offers one. */
  function Start(observerAvailable: bool, autoCloseTab: bool): (s: State)
    ensures !s.triggered && s.attempts == 0 && s.close == NotScheduled
    ensures s.timerLive && s.observerLive == observerAvailable && s.autoCloseTab == autoCloseTab
  {
    State(false, 0, true, observerAvailable, NotScheduled, autoCloseTab)
  }

  /** The eligibility rule of the auto-close: enabled and the tab has no
      history to go back to. */
  function ScheduleAutoCloseIfNeeded(s: State, page: Page): (r: Transition)
    ensures r.effects == [ScheduleClose] || r.effects == []
    ensures r.effects == [ScheduleClose] <==> s.autoCloseTab && page.historyLength <= 1
    ensures r.effects == [ScheduleClose] ==> r.state == s.(close := Pending)
    ensures r.effects == [] ==> r.state == s
  {
    if !s.autoCloseTab then Transition(s, [])
    else if page.historyLength > 1 then Transition(s, [])
    else Transition(s.(close := Pending), [ScheduleClose])
  }

  /** One detection attempt, guarded by the latch. */
  function TryTriggerOnce(s: State, page: Page): (r: Transition)
    // the latch short-circuits everything
    ensures s.triggered ==> r == Transition(s, [])
    // otherwise exactly one attempt is counted
    ensures !s.triggered ==> r.state.attempts == s.attempts + 1
    // the latch is set exactly when a strategy succeeds
    ensures !s.triggered ==> (r.state.triggered <==> HasMatch(page.candidates) || page.component.Some?)
    // the activation comes first
    ensures !s.triggered && r.state.triggered ==> |r.effects| >= 1 && r.effects[0].Activate?
    // a close is scheduled only together with the activation, and only when eligible
    ensures ScheduleClose in r.effects <==>
              !s.triggered && r.state.triggered && s.autoCloseTab && page.historyLength <= 1
    ensures r.state.close == (if ScheduleClose in r.effects then Pending else s.close)
    ensures RequestClose !in r.effects && |r.effects| <= 2
    ensures |r.effects| == 2 ==> r.effects[1] == ScheduleClose
    // a failed attempt changes nothing but the counter
    ensures !s.triggered && !r.state.triggered ==> r == Transition(s.(attempts := s.attempts + 1), [])
    // the timer, the observer and the setting are untouched
    ensures r.state.timerLive == s.timerLive && r.state.observerLive == s.observerLive
    ensures r.state.autoCloseTab == s.autoCloseTab
  {
    if s.triggered then Transition(s, [])
    else
      var counted := s.(attempts := s.attempts + 1);
      match Resolve(page)
      case NotFound => Transition(counted, [])
      case Activated(via) =>
        var closing := ScheduleAutoCloseIfNeeded(counted.(triggered := true), page);
        Transition(closing.state, [Activate(via)] + closing.effects)
  }

  /** The effects of an attempt that activates: the activation the resolver
      chose, then possibly the scheduled close. */
  lemma AttemptEffects(s: State, page: Page)
    ensures var r := TryTriggerOnce(s, page);
      !s.triggered && Resolve(page).Activated? ==>
        r.effects == [Activate(Resolve(page).via)] || r.effects == [Activate(Resolve(page).via), ScheduleClose]
  {
    if !s.triggered {
      match Resolve(page)
      case NotFound =>
      case Activated(via) =>
        var closing := ScheduleAutoCloseIfNeeded(s.(attempts := s.attempts + 1).(triggered := true), page);
        assert TryTriggerOnce(s, page).effects == [Activate(via)] + closing.effects;
    }
  }

  /** An attempt clicks candidate `i` exactly when the page is untriggered
      and `i` is the first qualifying candidate. */
  lemma AttemptClicksFirstMatch(s: State, page: Page, i: nat)
    ensures Activate(Click(i)) in TryTriggerOnce(s, page).effects
        <==> !s.triggered && IsFirstMatch(page.candidates, i)
  {
    AttemptEffects(s, page);
  }

  /** An attempt dispatches the component event exactly when the page is
      untriggered, no candidate qualifies and the component is present. */
  lemma AttemptDispatchesAsFallback(s: State, page: Page)
    ensures Activate(Dispatch) in TryTriggerOnce(s, page).effects
        <==> !s.triggered && !HasMatch(page.candidates) && page.component.Some?
  {
    AttemptEffects(s, page);
  }

  /** The body of the polling interval. A cleared interval never runs again;
      a live one stops itself when triggered or out of budget and otherwise
      makes one attempt. After a successful attempt the interval stays live
      until its next tick. */
  function OnTick(s: State, page: Page): (r: Transition)
    ensures !s.timerLive ==> r == Transition(s, [])
    ensures r.state.attempts != s.attempts <==> s.timerLive && !s.triggered && s.attempts < MAX_ATTEMPTS
    ensures r.state.attempts != s.attempts ==> r.state.attempts == s.attempts + 1 <= MAX_ATTEMPTS
    ensures r.state.timerLive <==> s.timerLive && !s.triggered && s.attempts < MAX_ATTEMPTS
    ensures r.state.attempts == s.attempts ==> r.effects == [] && r.state == s.(timerLive := r.state.timerLive)
    ensures r.state.observerLive == s.observerLive
    // the attempt a live tick makes is one detection attempt
    ensures s.timerLive && !s.triggered && s.attempts < MAX_ATTEMPTS ==> r == TryTriggerOnce(s, page)
  {
    if !s.timerLive then Transition(s, [])
    else if s.triggered then Transition(s.(timerLive := false), [])
    else if s.attempts >= MAX_ATTEMPTS then Transition(s.(timerLive := false), [])
    else TryTriggerOnce(s, page)
  }

  /** The callback's test of a batch, scanning the records in order: it holds
      exactly when some record has a non-empty list of added nodes. A record
      without that list counts as adding none. */
  function HasAddedNodes(records: seq<MutationRecord>): (r: bool)
    ensures r <==> exists k :: 0 <= k < |records| && records[k].addedNodes > 0
    decreases |records|
  {
    if records == [] then false
    else if records[0].addedNodes > 0 then true
    else
      assert forall k :: 1 <= k < |records| ==> records[k] == records[1..][k - 1];
      HasAddedNodes(records[1..])
  }

  /** The mutation observer's callback. It does not consult the attempt
      budget, and it is never disconnected. */
  function OnMutations(s: State, page: Page, records: seq<MutationRecord>): (r: Transition)
    ensures r.state.attempts != s.attempts <==> s.observerLive && !s.triggered && HasAddedNodes(records)
    ensures r.state.attempts != s.attempts ==> r.state.attempts == s.attempts + 1
    ensures r.state.attempts == s.attempts ==> r == Transition(s, [])
    ensures r.state.timerLive == s.timerLive && r.state.observerLive == s.observerLive
    // the attempt a batch triggers is one detection attempt
    ensures s.observerLive && !s.triggered && HasAddedNodes(records) ==> r == TryTriggerOnce(s, page)
  {
    if !s.observerLive then Transition(s, [])
    else if s.triggered then Transition(s, [])
    else if !HasAddedNodes(records) then Transition(s, [])
    else TryTriggerOnce(s, page)
  }

  /** The delayed close firing: it requests the close once and is gone. */
  function OnCloseTimer(s: State): (r: Transition)
    ensures r.effects == [RequestClose] <==> s.close == Pending
    ensures r.effects != [RequestClose] ==> r == Transition(s, [])
    ensures s.close == Pending ==> r.state == s.(close := Fired)
  {
    if s.close == Pending then Transition(s.(close := Fired), [RequestClose]) else Transition(s, [])
  }

  function Step(s: State, e: Event): (r: Transition)
  {
    match e
    case Tick(page) => OnTick(s, page)
    case Mutations(page, records) => OnMutations(s, page, records)
    case CloseTimer => OnCloseTimer(s)
  }
}
