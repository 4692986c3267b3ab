# NexusMods Slow Download Auto Clicker: the trigger engine in Dafny

This project models the detection-and-trigger engine of the extension's
content script (`content-script.js`). The engine finds the "Slow download"
control on a NexusMods download page and activates it once. It then
optionally schedules the tab to close. The model is a functional state
machine:

- `text.dfy` (module `Text`): the text rule. It trims the way ECMAScript's
  `trim` does, lower-cases ASCII letters, and searches for the substring
  "slow download".
- `strategy.dfy` (module `Strategy`): the button search, the two activation
  strategies (click a button, or dispatch `slowDownload` on the
  `mod-file-download` component), and their fixed priority.
- `engine.dfy` (module `Engine`): the state (`triggered`, `attempts`, the
  live interval, the registered observer, the delayed close) and one pure
  step per continuation: interval tick, mutation batch, close timer. `Start`
  is the initial transition.
- `traces.dfy` (module `Traces`): runs over any interleaving of those events.
  Its main result is that a page sees at most one activation, at most one
  scheduled close and at most one close request.

The page is an input of every event, not part of the state, because the host
page may change it between continuations. An event's page holds the button
candidates in document order (text and disabled flag), whether a
`mod-file-download` element exists, whether that element's listener cancels
the event, and `history.length`.

The code is modelled as written. Three of its behaviours are easy to miss:

- The interval is not cleared when the latch is set. It clears itself on its
  next tick (`Engine.OnTick`, `Traces.TimerClearedOnNextTick`). The observer
  is never disconnected (`Traces.ObserverStaysRegistered`); once the latch is
  set, its callback returns early.
- The 40-attempt budget binds only the interval. The observer callback never
  checks it, so a mutation batch can still make an attempt and activate after
  polling has stopped (`Traces.ObserverOutlivesBudget`). Mutation-driven
  attempts also increment the shared counter, so they use up the interval's
  budget (`Traces.ObserverAttemptsSpendBudget`).
- The component strategy reports success whether or not the host page cancels
  the event (`Strategy.DispatchIgnoresCancellation`).

## Model

| member | source | states |
|---|---|---|
| Text.TrimStartSpec | content-script.js:78 | the result is the longest suffix of the text that does not begin with ECMAScript white space; everything dropped is white space |
| Text.TrimEndSpec | content-script.js:78 | the result is the longest prefix that does not end with white space; everything dropped is white space |
| Text.TrimEnds | content-script.js:78 | the trimmed text is empty or neither starts nor ends with white space |
| Text.TrimBracketed | content-script.js:78 | the trimmed text is a contiguous piece of the original with only white space before and after it |
| Text.Lower | content-script.js:78 | lower-casing keeps the length, maps each A-Z letter to its lower-case form, keeps every other character, and leaves no upper-case ASCII letter |
| Text.Contains | content-script.js:81 | the scanning substring test holds exactly when the phrase occurs at some position of the text |
| Text.TextMatches | content-script.js:77-81 | a text matches exactly when the phrase occurs somewhere in its trimmed, lower-cased form |
| Text.TrimIgnoresPadding | content-script.js:78 | trimming text padded on both sides with white space gives the same result as trimming the unpadded text |
| Text.LowerTrimCommute | content-script.js:78 | lower-casing then trimming equals trimming then lower-casing |
| Text.TextMatchesIgnoresCase | content-script.js:77-81 | two texts that differ only in the case of ASCII letters either both match or both fail |
| Text.TextMatchesIgnoresPadding | content-script.js:77-81 | white space around a text never changes whether it matches |
| Text.ShortTextNeverMatches | content-script.js:80-81 | text whose trimmed length is below the phrase's length, empty text included, never matches |
| Text.PaddedTitleCaseMatches | content-script.js:77-81 | "  Slow Download  " matches |
| Text.UpperCaseMatches | content-script.js:77-81 | "SLOW DOWNLOAD" matches |
| Text.ExtendedTextMatches | content-script.js:77-81 | "slow download now" matches |
| Text.DownloadAloneDoesNotMatch | content-script.js:77-81 | "download" alone does not match |
| Strategy.QualifiesOccurs | content-script.js:80-86 | a candidate qualifies exactly when it is enabled and the phrase occurs in its trimmed, lower-cased text |
| Strategy.FindFrom | content-script.js:76-95 | the loop resumed at position k returns the first qualifying position at or after k; it returns none only when no position from k on qualifies |
| Strategy.FindVisibleSlowDownloadButton | content-script.js:68-99 | returns position i exactly when i is the first candidate in document order whose trimmed, lower-cased text is non-empty and contains the phrase and which is not disabled; returns null exactly when no candidate qualifies |
| Strategy.TriggerViaVisibleButton | content-script.js:101-108 | succeeds exactly when some candidate qualifies, and then clicks the first one |
| Strategy.TriggerViaModFileDownloadComponent | content-script.js:114-139 | succeeds exactly when the component is present, by dispatch, independent of the listener |
| Strategy.Resolve | content-script.js:263-275 | clicks candidate i exactly when i is the first match; dispatches exactly when no candidate qualifies and the component is present; finds nothing exactly when neither exists |
| Strategy.DisabledCandidateNeverClicked | content-script.js:83-86 | a disabled candidate is never the one clicked, even if its text matches |
| Strategy.DisabledOnlyCandidateNotFound | content-script.js:76-98 | a page whose only candidate is a disabled "Slow download" button, with no component, yields no activation |
| Strategy.ButtonTakesPriority | content-script.js:263-275 | when a qualifying button and the component are both present, the button is clicked and no event is dispatched |
| Strategy.DispatchIgnoresCancellation | content-script.js:132-138 | the component strategy's outcome is the same whether or not the host listener cancels the event |
| Engine.Start | content-script.js:341-358 | the engine starts untriggered with no attempts and no close; the interval is live; the observer is registered exactly when the environment provides one |
| Engine.ScheduleAutoCloseIfNeeded | content-script.js:226-248 | a close is scheduled exactly when auto-close is on and `history.length <= 1`; otherwise nothing changes |
| Engine.TryTriggerOnce | content-script.js:254-280 | on a triggered page it does nothing; otherwise it adds exactly one attempt and sets the latch exactly when a strategy succeeds; a failed attempt changes only the counter; a close is scheduled exactly when the latch is set in this call and the tab is eligible; timer and observer are untouched |
| Engine.AttemptClicksFirstMatch | content-script.js:263-268 | an attempt clicks candidate i exactly when the page is untriggered and i is the first qualifying candidate |
| Engine.AttemptDispatchesAsFallback | content-script.js:270-275 | an attempt dispatches the event exactly when the page is untriggered, no button qualifies and the component is present |
| Engine.OnTick | content-script.js:288-305 | a cleared interval does nothing; a live tick attempts exactly when untriggered with fewer than 40 attempts, and that attempt is one `TryTriggerOnce` (so it may click, dispatch, set the latch and schedule the close) adding exactly one, so a tick never takes the counter past 40; otherwise it clears the interval without effects |
| Engine.HasAddedNodes | content-script.js:317-319 | the batch test holds exactly when some record added at least one node |
| Engine.OnMutations | content-script.js:314-324 | when the observer is registered, the page is untriggered and some record added nodes, a batch makes one `TryTriggerOnce` attempt (which may click, dispatch, set the latch and schedule the close); otherwise nothing changes; the budget is not consulted |
| Engine.OnCloseTimer | content-script.js:244-247 | the close timer requests the close exactly when a close is pending and then marks it done |
| Traces.StepAccounts | content-script.js:254-324 | every step preserves "no close before the latch" and never resets the latch; it activates exactly when it sets the latch, schedules exactly when the close becomes pending, and requests exactly when the close fires |
| Traces.RunAccounts | content-script.js:254-324 | over any sequence of events the latch is never reset; the number of activations, schedules and requests each equals the number of corresponding state changes, so each is at most one |
| Traces.AtMostOnce | content-script.js:254-324 | from the start, any interleaving of ticks, mutation batches and the close timer yields at most one activation, and one exactly when the latch ends up set; schedules never exceed activations; requests never exceed schedules |
| Traces.ClearedTimerStaysCleared | content-script.js:288-305 | once the interval is cleared it stays cleared for every later event |
| Traces.ObserverStaysRegistered | content-script.js:308-335 | the observer's registration never changes over any run |
| Traces.PollingExhausts | content-script.js:295-302 | while every tick sees a page where nothing can succeed (the page may change between ticks), ticks raise the counter to exactly 40, the next tick clears the interval, and nothing is activated |
| Traces.BudgetEndsPolling | content-script.js:282-305 | from the start, 41 ticks on such pages make exactly 40 attempts and clear the interval; it never ticks again |
| Traces.ObserverAttemptsSpendBudget | content-script.js:260 | a failed mutation-driven attempt at 39 attempts makes the next tick clear the interval without attempting |
| Traces.ObserverOutlivesBudget | content-script.js:314-324 | after polling has given up, a mutation batch bringing a qualifying button still clicks it |
| Traces.TimerClearedOnNextTick | content-script.js:288-293 | the tick that activates leaves the interval live, and the next tick clears it without attempting |
| Traces.CloseDependsOnHistory | content-script.js:232-238 | after a successful attempt with auto-close on, a close is scheduled when `history.length` is 1 and not when it is 2 |
| Traces.ShippedSettingClosesFreshTab | content-script.js:26 | with the shipped `AUTO_CLOSE_TAB`, a first tick that finds a button on a single-entry tab gives a click, then a scheduled close, then one close request |

## Left out

- `requestCloseCurrentTab` (script injection, `window.close`, detection of the runtime API, `sendMessage`): browser I/O. The model records the close request as the effect `RequestClose`.
- `background.js`: a message handler over `tabs.remove`, with no logic of its own beyond the I/O.
- Real time: `setInterval`, `setTimeout` and the 500 ms and 10 s delays are abstract events. Their order is arbitrary.
- The readiness check and the `DOMContentLoaded` deferral in `start`: the model begins at the transition that starts polling. A failed `observe` registration counts as an unavailable observer.
- `markElement` and `debugLog`: cosmetic marking and logging with no effect on the decisions.
- Strategy.TriggerViaVisibleButton: candidates are taken to be HTML elements. The selector `a[role='button']` also matches an SVG `<a role="button">`, which has no `click` method. Calling it throws after the attempt has been counted and before the latch is set, so that attempt also skips the component fallback. The model does not represent this exception path.
- The DOM API (`querySelectorAll`, `querySelector`, `CustomEvent`, `dispatchEvent`, `click`): the page is abstract input data supplied with each event.
- Text.Lower, Text.TextMatches: lower-case only ASCII A-Z. The full Unicode case mapping of `toLowerCase` is not modelled. This cannot change whether a text matches: the only non-ASCII code points `toLowerCase` maps into ASCII are U+0130 (to "i" followed by a combining dot) and U+212A (to "k"), and neither "i" nor "k" occurs in "slow download". `textContent` is taken to be a string, as it always is for elements.
