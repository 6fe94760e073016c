/**
  The Sleep screen (`SleepViewController`): a two-state alarm mode. Off, a
  Home button is shown and registered; on, an Alarm button is. A double tap
  toggles the mode, and switching it off always goes home.
*/
module Sleep {
  import opened Wrappers
  import opened ControlGateway
  import opened Localization
  import opened Controls
  import opened Home

  /** The alarm flag and the views its `didSet` maintains. */
  datatype SleepState = SleepState(alarmOn: bool, homeHidden: bool, alarmHidden: bool, explanation: string)

  function Explanation(loc: Strings, alarmOn: bool): string
  {
    if alarmOn then loc.explanationAlarmOn else loc.explanationAlarmOff
  }

  /** The screen after loading: alarm off, Alarm button hidden. */
  function Initial(loc: Strings): (s: SleepState)
    ensures Consistent(loc, s) && !s.alarmOn
  {
    SleepState(false, false, true, Explanation(loc, false))
  }

  /** Exactly one of the two buttons is visible, and the explanation matches the mode. */
  predicate Consistent(loc: Strings, s: SleepState)
  {
    s.homeHidden == s.alarmOn && s.alarmHidden == !s.alarmOn && s.explanation == Explanation(loc, s.alarmOn)
  }

  /**
    Assigning `alarmModeIsOn`: the current value changes nothing; a real
    change updates both buttons and the explanation and re-registers the
    screen's actions exactly once.
  */
  function SetAlarmMode(loc: Strings, s: SleepState, on: bool, g: Gw): (r: (SleepState, Gw))
    ensures on == s.alarmOn ==> r == (s, g)
    ensures on != s.alarmOn ==> r.1 == Update(g, ChildSurface(Sleep))
    ensures on != s.alarmOn ==> Consistent(loc, r.0) && r.0.alarmOn == on
  {
    if on == s.alarmOn then (s, g)
    else (SleepState(on, on, !on, Explanation(loc, on)), Update(g, ChildSurface(Sleep)))
  }

  /** The explanation is the alarm-on text exactly when alarm mode is on. */
  lemma ExplanationMatchesMode(loc: Strings, s: SleepState, on: bool, g: Gw)
    requires DistinctExplanations(loc) && Consistent(loc, s)
    ensures SetAlarmMode(loc, s, on, g).0.explanation == loc.explanationAlarmOn <==> on
  {
  }

  /** A double tap toggles alarm mode; switching it off goes home, switching it on does not. */
  function DoubleTap(loc: Strings, s: SleepState, c: Coord, delegates: set<Child>): (r: (SleepState, Coord))
    ensures r.0.alarmOn == !s.alarmOn
    ensures s.alarmOn ==> r.1 == GoHome(c.(gw := Update(c.gw, ChildSurface(Sleep))), delegates)
    ensures !s.alarmOn ==> r.1 == c.(gw := Update(c.gw, ChildSurface(Sleep)))
  {
    var (s', g') := SetAlarmMode(loc, s, !s.alarmOn, c.gw);
    var c' := c.(gw := g');
    if !s'.alarmOn then (s', GoHome(c', delegates)) else (s', c')
  }

  /** The action registered when the screen becomes active: go home, or ring the alarm, never both. */
  function Registered(s: SleepState): (r: seq<Action>)
    ensures |r| == 1
    ensures r[0] == SleepGoHome <==> !s.alarmOn
    ensures r[0] == SleepAlarm <==> s.alarmOn
  {
    if !s.alarmOn then [SleepGoHome] else [SleepAlarm]
  }
}
