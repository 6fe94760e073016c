/**
  The help page (`InfoViewController`): which bundled page is shown for the
  system language, which navigation requests the web view may follow, and
  how the control layer's trials flag is switched off while the page is up.
*/
module Info {
  import opened Wrappers

  datatype InfoPage = EnglishPage | DutchPage

  /** Dutch only for the language code "nl"; English otherwise, also without a code. */
  function PageFor(languageCode: Option<string>): (r: InfoPage)
    ensures r == DutchPage <==> languageCode == Some("nl")
  {
    if languageCode == Some("nl") then DutchPage else EnglishPage
  }

  datatype Policy = Allow | Cancel

  /** The web view's answer, plus the URLs handed to the external browser. */
  datatype Decision = Decision(policy: Policy, openedExternally: seq<string>)

  /**
    `decidePolicyFor`: a request without a URL is cancelled; the page's own
    URL is allowed; any other URL is cancelled and opened externally once.
  */
  function Decide(requested: Option<string>, own: string): (r: Decision)
    ensures requested.None? ==> r == Decision(Cancel, [])
    ensures r.policy == Allow <==> requested == Some(own)
    ensures requested.Some? && requested.value != own ==> r.openedExternally == [requested.value]
    ensures |r.openedExternally| <= 1
  {
    match requested
    case None => Decision(Cancel, [])
    case Some(u) => if u == own then Decision(Allow, []) else Decision(Cancel, [u])
  }

  /** The control layer's trials flag and the value remembered while the page is up. */
  datatype Trials = Trials(running: bool, wereRunning: bool)

  /** `viewWillAppear`: remember the flag, then stop trials. */
  function WillAppear(t: Trials): (r: Trials)
    ensures !r.running && r.wereRunning == t.running
  {
    Trials(false, t.running)
  }

  /** `viewDidDisappear`: put the remembered value back. */
  function DidDisappear(t: Trials): (r: Trials)
    ensures r.running == t.wereRunning
  {
    t.(running := t.wereRunning)
  }

  /** Whatever happens to the flag while the page is shown, dismissing it restores the value from before. */
  lemma VisitRestoresTrials(t: Trials, during: bool)
    ensures DidDisappear(WillAppear(t).(running := during)).running == t.running
  {
  }
}
