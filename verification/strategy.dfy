/**
 The two activation strategies of the content script and the fixed order in
 which one detection attempt tries them.

 The document is abstracted to the data an attempt reads: the controls
 matched by the selector "button, a[role='button']" in document order, each
 with its text content and disabled flag, and whether a `mod-file-download`
 element exists. The host page may change this data between attempts, so it
 is an input of every attempt rather than part of the engine's state.
 */
module Strategy {
  import opened Text

  datatype Option<T> = None | Some(value: T)

  /** A control matched by the button selector. */
  datatype Candidate = Candidate(text: string, disabled: bool)

  /** A `mod-file-download` element. `preventsDefault` records whether the
      host page's listener cancels the `slowDownload` event dispatched on it. */
  datatype Component = Component(preventsDefault: bool)

  /** What one continuation of the engine reads from the page and window. */
  datatype Page = Page(candidates: seq<Candidate>, component: Option<Component>, historyLength: nat)

  /** How a successful attempt activated the download: a click on the
      candidate at `index`, or the `slowDownload` event on the component. */
  datatype Activation = Click(index: nat) | Dispatch

  datatype Outcome = Activated(via: Activation) | NotFound

  /** A candidate the button search accepts: enabled, and the phrase occurs
      in its trimmed, lower-cased text. */
  function Qualifies(c: Candidate): (r: bool)
  {
    TextMatches(c.text) && !c.disabled
  }

  /** What qualifying means, stated apart from `Qualifies` so that proofs
      about the search do not carry it: enabled, and the phrase occurs in
      the trimmed, lower-cased text. */
  lemma QualifiesOccurs(c: Candidate)
    ensures Qualifies(c) <==> !c.disabled && exists i :: OccursAt(Lower(Trim(c.text)), Target, i)
  {
  }

  ghost predicate HasMatch(cs: seq<Candidate>)
  {
    exists i :: 0 <= i < |cs| && Qualifies(cs[i])
  }

  /** `i` is the first candidate in document order that qualifies. */
  ghost predicate IsFirstMatch(cs: seq<Candidate>, i: int)
  {
    0 <= i < |cs| && Qualifies(cs[i]) && forall j :: 0 <= j < i ==> !Qualifies(cs[j])
  }

  /** The for-of loop of the button search, resumed at position `k`. */
  function FindFrom(cs: seq<Candidate>, k: nat): (r: Option<nat>)
    requires k <= |cs|
    ensures r.Some? ==> k <= r.value < |cs| && Qualifies(cs[r.value])
    ensures r.Some? ==> forall j :: k <= j < r.value ==> !Qualifies(cs[j])
    ensures r.None? ==> forall j :: k <= j < |cs| ==> !Qualifies(cs[j])
    decreases |cs| - k
  {
    if k == |cs| then None
    else if Qualifies(cs[k]) then Some(k)
    else FindFrom(cs, k + 1)
  }

  /** The button search: the position of the first qualifying candidate, or
      None (JavaScript's null) when no candidate qualifies. */
  function FindVisibleSlowDownloadButton(cs: seq<Candidate>): (r: Option<nat>)
    ensures r.None? <==> !HasMatch(cs)
    ensures forall i :: r == Some(i) <==> IsFirstMatch(cs, i)
  {
    FindFrom(cs, 0)
  }

  /** The direct-invocation strategy: click the button the search found. */
  function TriggerViaVisibleButton(page: Page): (r: Outcome)
    ensures r.Activated? <==> HasMatch(page.candidates)
    ensures r.Activated? ==> r.via.Click? && IsFirstMatch(page.candidates, r.via.index)
  {
    match FindVisibleSlowDownloadButton(page.candidates)
    case None => NotFound
    case Some(i) => Activated(Click(i))
  }

  /** The signal-dispatch strategy: dispatch `slowDownload` on the component.
      Success depends only on the component being present; whether its
      listener cancels the event is not consulted. */
  function TriggerViaModFileDownloadComponent(page: Page): (r: Outcome)
    ensures r.Activated? <==> page.component.Some?
    ensures r.Activated? ==> r.via == Dispatch
  {
    match page.component
    case None => NotFound
    case Some(_) => Activated(Dispatch)
  }

  /** One attempt's choice of strategy: the button when one qualifies, the
      component event only when no button qualifies, nothing otherwise. */
  function Resolve(page: Page): (r: Outcome)
    ensures forall i: nat :: r == Activated(Click(i)) <==> IsFirstMatch(page.candidates, i)
    ensures r == Activated(Dispatch) <==> !HasMatch(page.candidates) && page.component.Some?
    ensures r == NotFound <==> !HasMatch(page.candidates) && page.component.None?
  {
    var viaButton := TriggerViaVisibleButton(page);
    if viaButton.Activated? then viaButton else TriggerViaModFileDownloadComponent(page)
  }

  // ---------------------------------------------------------------------------
  // Properties of the strategies

  /** A disabled candidate is never the one clicked, even when its text matches. */
  lemma DisabledCandidateNeverClicked(page: Page, i: nat)
    requires i < |page.candidates| && page.candidates[i].disabled
    ensures Resolve(page) != Activated(Click(i))
  {
  }

  /** A page whose only control is a disabled "Slow download" button and
      which has no component yields no activation. */
  lemma DisabledOnlyCandidateNotFound(hist: nat)
    ensures Resolve(Page([Candidate("Slow download", true)], None, hist)) == NotFound
  {
    var page := Page([Candidate("Slow download", true)], None, hist);
    assert !HasMatch(page.candidates);
  }

  /** Priority: with both a qualifying button and a component present, the
      button is clicked and the event is not dispatched. */
  lemma ButtonTakesPriority(page: Page)
    ensures HasMatch(page.candidates) && page.component.Some? ==>
              Resolve(page).Activated? && Resolve(page).via.Click?
  {
  }

  /** The component strategy reports the same outcome whether or not the
      page's listener cancels the event. */
  lemma DispatchIgnoresCancellation(cs: seq<Candidate>, hist: nat, a: bool, b: bool)
    ensures TriggerViaModFileDownloadComponent(Page(cs, Some(Component(a)), hist))
         == TriggerViaModFileDownloadComponent(Page(cs, Some(Component(b)), hist))
  {
  }
}
