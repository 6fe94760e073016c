/**
  The whole app as one state machine: the Home coordinator with its three
  children, the Sleep screen's alarm mode, the app settings, the control
  layer's mode and the actions the control layer holds for the top entry.
  Inputs are brain presses and touches of registered actions, keyboard key
  presses, gestures and settings edits; `Step` gives the next state.
*/
module App {
  import opened Wrappers
  import opened ControlGateway
  import opened SettingsStore
  import opened Localization
  import opened NovaSettings
  import opened Controls
  import opened Home
  import Speller
  import Sleep
  import YesNo

  /** What the app is built with: its strings, and which children are control delegates. */
  datatype Config = Config(loc: Strings, delegates: set<Child>)

  datatype AppState = AppState(
    coord: Coord,
    sleep: Sleep.SleepState,
    settings: Store,
    mode: Mode,
    effects: seq<Effect>,
    registered: seq<Action>)

  datatype Input =
    | BrainPress(action: Action)
    | Touch(action: Action)
    | KeyPress(id: string)
    | PinchGesture(phase: PinchPhase, scaleBelowHalf: bool)
    | DoubleTap
    | EditSetting(title: string, value: Value)
    | ModeChanged(mode: Mode)

  /** Home has appeared and pushed itself; every child is built but none is shown. */
  function Init(cfg: Config, settings: Store, mode: Mode): AppState
  {
    Activate(AppState(Home.Initial(), Sleep.Initial(cfg.loc), settings, mode, [], []), cfg)
  }

  function Top(a: AppState): Option<Surface>
  {
    var st := a.coord.gw.stack;
    if st == [] then None else Some(st[|st| - 1])
  }

  /**
    The actions the top entry adds when the control layer starts it, read
    from the current state: Home reads the nine-sentence choice and the
    button titles at that moment.
  */
  function Registered(a: AppState, cfg: Config): seq<Action>
  {
    match Top(a)
    case Some(HomeSurface) => HomeActions(a.settings, cfg.loc)
    case Some(ChildSurface(Speller)) => Speller.Registered()
    case Some(ChildSurface(YesNo)) => YesNo.Registered()
    case Some(ChildSurface(Sleep)) => Sleep.Registered(a.sleep)
    case Some(KeyboardSurface) => []
    case None => []
  }

  /** Showing a child; the Speller's appearance then pushes the keyboard. */
  function Open(a: AppState, c: Child, cfg: Config): AppState
  {
    var shown := Show(a.coord, Some(c), cfg.delegates);
    var appeared := if c == Speller && a.coord.shown != Some(Speller) then Speller.DidAppear(shown) else shown;
    a.(coord := appeared)
  }

  /** The control layer starts the top entry, which registers its actions afresh. */
  function Activate(a: AppState, cfg: Config): AppState
  {
    a.(registered := Registered(a, cfg))
  }

  /**
    After an input moved from `a` to `b`: a push, pop or update of the
    gateway restarts control on the top entry; otherwise the actions it
    registered earlier stay in force.
  */
  function Restart(a: AppState, b: AppState, cfg: Config): AppState
  {
    if b.coord.gw != a.coord.gw then Activate(b, cfg) else b
  }

  function Emit(a: AppState, es: seq<Effect>): AppState
  {
    a.(effects := a.effects + es)
  }

  /** What a registered action does when the control layer fires it. */
  function Perform(a: AppState, act: Action, cfg: Config): AppState
  {
    match act
    case OpenSleep => Open(a, Sleep, cfg)
    case OpenSpeller => Open(a, Speller, cfg)
    case EnterBrain => Emit(a, [EnterBrainControl])
    case SoundAlarm => Emit(a, [PlayAlarm])
    case OpenSettingsPage => Emit(a, [OpenSettings])
    case OpenHelpPage => Emit(a, [OpenHelp])
    case SpeakTitle(_, t) => Emit(a, [Say(t)])
    case YesPressed => Emit(a, YesNo.IfNotTrainingSpeak(a.mode, Some(cfg.loc.yesNoYes)))
    case NoPressed => Emit(a, YesNo.IfNotTrainingSpeak(a.mode, Some(cfg.loc.yesNoNo)))
    case CloseYesNo => a.(coord := GoHome(a.coord, cfg.delegates))
    case SleepGoHome => a.(coord := GoHome(a.coord, cfg.delegates))
    case SleepAlarm => Emit(a, [PlayAlarm])
  }

  /**
    One input. A touch acts only if the top entry registered the action, and
    a brain press only if, in addition, its button flickers; a key press only
    reaches the Speller while the keyboard is on top, a double tap only
    reaches the Sleep screen while it is shown, and an edit the store rejects
    changes nothing. An edit alone never restarts control, so Home's
    registered actions keep the titles they were registered with.
  */
  function Step(a: AppState, i: Input, cfg: Config): AppState
  {
    match i
    case BrainPress(act) =>
      if act in a.registered && Flickers(act) then Restart(a, Perform(a, act, cfg), cfg) else a
    case Touch(act) =>
      if act in a.registered then Restart(a, Perform(a, act, cfg), cfg) else a
    case KeyPress(id) =>
      if Top(a) == Some(KeyboardSurface) then
        Restart(a, a.(coord := Speller.CustomKeyPress(a.coord, id, cfg.delegates).1), cfg)
      else a
    case PinchGesture(ph, below) => Restart(a, a.(coord := Pinch(a.coord, ph, below, cfg.delegates)), cfg)
    case DoubleTap =>
      if a.coord.shown == Some(Sleep) then
        var r := Sleep.DoubleTap(cfg.loc, a.sleep, a.coord, cfg.delegates);
        Restart(a, a.(sleep := r.0, coord := r.1), cfg)
      else a
    case EditSetting(t, v) =>
      (match Set(a.settings, t, v)
       case Ok(s) => a.(settings := s)
       case Err(_) => a)
    case ModeChanged(m) => a.(mode := m)
  }

  function Run(a: AppState, inputs: seq<Input>, cfg: Config): AppState
    decreases |inputs|
  {
    if inputs == [] then a else Run(Step(a, inputs[0], cfg), inputs[1..], cfg)
  }

  /** The gateway stack for each shown child: Home at the bottom, the child (and the keyboard) above. */
  function Expected(shown: Option<Child>): seq<Surface>
  {
    match shown
    case None => [HomeSurface]
    case Some(Speller) => [HomeSurface, ChildSurface(Speller), KeyboardSurface]
    case Some(c) => [HomeSurface, ChildSurface(c)]
  }

  /** A stack the control layer may be shown: Home, plus at most one child (and the Speller's keyboard). */
  predicate ValidStack(st: seq<Surface>)
  {
    st == [HomeSurface]
    || (|st| == 2 && st[0] == HomeSurface && st[1].ChildSurface?)
    || st == [HomeSurface, ChildSurface(Speller), KeyboardSurface]
  }

  /** Every stack ever committed to the control layer is valid. */
  predicate CommitsValid(trace: seq<Event<Surface>>)
  {
    forall i :: 0 <= i < |trace| && trace[i].Committed? ==> ValidStack(trace[i].stack)
  }

  /**
    The actions the control layer holds for the top entry are the ones it
    would register now, except on Home, whose captured sentence titles may
    predate an edit: there they are navigation or speech actions.
  */
  predicate Fits(a: AppState, cfg: Config)
  {
    if Top(a) == Some(HomeSurface) then
      forall act :: act in a.registered ==> act in NavigationActions || act.SpeakTitle?
    else a.registered == Registered(a, cfg)
  }

  /** The invariant of the coordinator, the Sleep screen and the settings. */
  predicate Core(a: AppState, cfg: Config)
  {
    && cfg.delegates == Children
    && a.coord.gw.depth == 0
    && a.coord.gw.stack == Expected(a.coord.shown)
    && (a.coord.shown != Some(Sleep) ==> !a.sleep.alarmOn)
    && Sleep.Consistent(cfg.loc, a.sleep)
    && WellShaped(cfg.loc, a.settings)
    && CommitsValid(a.coord.gw.trace)
  }

  predicate Inv(a: AppState, cfg: Config)
  {
    Core(a, cfg) && Fits(a, cfg)
  }

  lemma AppendKeepsCommitsValid(t: seq<Event<Surface>>, d: seq<Event<Surface>>)
    requires CommitsValid(t)
    requires forall e :: e in d && e.Committed? ==> ValidStack(e.stack)
    ensures CommitsValid(t + d)
  {
    forall i | 0 <= i < |t + d| && (t + d)[i].Committed? ensures ValidStack((t + d)[i].stack) {
      if i >= |t| {
        assert (t + d)[i] == d[i - |t|];
      }
    }
  }

  lemma InitKeepsInv(cfg: Config, settings: Store, mode: Mode)
    requires cfg.delegates == Children && WellShaped(cfg.loc, settings)
    ensures Inv(Init(cfg, settings, mode), cfg)
  {
    var t := Init(cfg, settings, mode).coord.gw.trace;
    var e: Gw := Empty();
    assert e.trace + [Pushed(HomeSurface)] == [Pushed(HomeSurface)];
    assert e.stack + [HomeSurface] == [HomeSurface];
    assert t == [Pushed(HomeSurface), Committed([HomeSurface])];
    HomeNavigationAlwaysRegistered(settings, cfg.loc);
  }

  /** Restarting control after a step that kept the core invariant restores the whole invariant. */
  lemma RestartKeepsInv(a: AppState, b: AppState, cfg: Config)
    requires Fits(a, cfg) && Core(b, cfg)
    requires b.coord.gw == a.coord.gw ==> b.sleep == a.sleep && b.registered == a.registered
    ensures Inv(Restart(a, b, cfg), cfg)
  {
    var r := Restart(a, b, cfg);
    assert r.coord == b.coord && r.sleep == b.sleep && r.settings == b.settings;
    if b.coord.gw != a.coord.gw {
      ActivateFits(b, cfg);
    } else {
      assert Top(b) == Top(a);
    }
  }

  /** Freshly registered actions fit the state they were read from. */
  lemma ActivateFits(b: AppState, cfg: Config)
    ensures Fits(Activate(b, cfg), cfg)
  {
    var r := Activate(b, cfg);
    assert Top(r) == Top(b) && r.settings == b.settings && r.sleep == b.sleep;
    if Top(b) == Some(HomeSurface) {
      assert r.registered == HomeActions(b.settings, cfg.loc);
      HomeNavigationAlwaysRegistered(b.settings, cfg.loc);
    } else {
      assert r.registered == Registered(r, cfg);
    }
  }

  /** Showing a child or going home from a valid state commits the expected stack once. */
  lemma ShowKeepsInv(a: AppState, next: Option<Child>, cfg: Config)
    requires Core(a, cfg) && a.coord.shown != Some(Speller) && next != Some(Speller)
    ensures var c := Show(a.coord, next, cfg.delegates);
      c.gw.depth == 0 && c.gw.stack == Expected(next) && CommitsValid(c.gw.trace)
  {
    ShowExpectedStack(a, next, cfg);
    var c := Show(a.coord, next, cfg.delegates);
    if next != a.coord.shown {
      var d := ShowOps(a.coord.shown, next, cfg.delegates) + [Committed(c.gw.stack)];
      assert c.gw.trace == a.coord.gw.trace + d;
      ShowOpsCommitOnlyLast(a.coord.shown, next, cfg.delegates, c.gw.stack);
      AppendKeepsCommitsValid(a.coord.gw.trace, d);
    }
  }

  lemma ShowExpectedStack(a: AppState, next: Option<Child>, cfg: Config)
    requires Core(a, cfg) && a.coord.shown != Some(Speller) && next != Some(Speller)
    ensures var c := Show(a.coord, next, cfg.delegates);
      c.gw.depth == 0 && c.gw.stack == Expected(next) && ValidStack(c.gw.stack)
  {
    assert a.coord.gw.stack == Owned([HomeSurface], a.coord.shown);
    ShowKeepsBalance(a.coord, [HomeSurface], next);
  }

  /** The pops and pushes of a show commit nothing; only the closing commit does. */
  lemma ShowOpsCommitOnlyLast(prev: Option<Child>, next: Option<Child>, delegates: set<Child>, st: seq<Surface>)
    requires ValidStack(st)
    ensures forall e :: e in ShowOps(prev, next, delegates) + [Committed(st)] && e.Committed? ==> ValidStack(e.stack)
  {
  }

  lemma OpenSpellerKeepsInv(a: AppState, cfg: Config)
    requires Core(a, cfg) && a.coord.shown.None?
    ensures Core(Open(a, Speller, cfg), cfg)
  {
    var c := Show(a.coord, Some(Speller), cfg.delegates);
    ShowKeepsBalance(a.coord, [HomeSurface], Some(Speller));
    AppendKeepsCommitsValid(a.coord.gw.trace, [Pushed(ChildSurface(Speller)), Committed(c.gw.stack)]);
    var d := Speller.DidAppear(c);
    AppendKeepsCommitsValid(c.gw.trace, [Pushed(KeyboardSurface), Committed(d.gw.stack)]);
  }

  lemma GoHomeFromSpellerKeepsInv(a: AppState, id: string, cfg: Config)
    requires Core(a, cfg) && Top(a) == Some(KeyboardSurface)
    ensures Core(a.(coord := Speller.CustomKeyPress(a.coord, id, cfg.delegates).1), cfg)
  {
    assert a.coord.shown == Some(Speller);
    if id == Speller.HomeKeyId {
      Speller.HomeKeyPopsTwiceInOneBatch(a.coord, cfg.delegates);
      AppendKeepsCommitsValid(a.coord.gw.trace, [Popped, Popped, Committed([HomeSurface])]);
    }
  }

  /** A registered action keeps the core invariant and never touches the Sleep screen's state. */
  lemma PerformKeepsInv(a: AppState, act: Action, cfg: Config)
    requires Inv(a, cfg) && act in a.registered
    ensures Core(Perform(a, act, cfg), cfg)
    ensures Perform(a, act, cfg).sleep == a.sleep && Perform(a, act, cfg).registered == a.registered
  {
    if Top(a) == Some(HomeSurface) {
      assert act in NavigationActions || act.SpeakTitle?;
    }
    match act
    case OpenSleep =>
      ShowKeepsInv(a, Some(Sleep), cfg);
    case OpenSpeller =>
      OpenSpellerKeepsInv(a, cfg);
    case CloseYesNo =>
      ShowKeepsInv(a, None, cfg);
    case SleepGoHome =>
      assert !a.sleep.alarmOn;
      ShowKeepsInv(a, None, cfg);
    case _ =>
  }

  lemma DoubleTapKeepsInv(a: AppState, cfg: Config)
    requires Core(a, cfg) && a.coord.shown == Some(Sleep)
    ensures var r := Sleep.DoubleTap(cfg.loc, a.sleep, a.coord, cfg.delegates);
      Core(a.(sleep := r.0, coord := r.1), cfg) && r.1.gw != a.coord.gw
  {
    var u := a.coord.(gw := Update(a.coord.gw, ChildSurface(Sleep)));
    AppendKeepsCommitsValid(a.coord.gw.trace, [Updated(ChildSurface(Sleep))]);
    if a.sleep.alarmOn {
      var b := a.(coord := u);
      ShowKeepsInv(b, None, cfg);
    }
  }

  /** Every input keeps the invariant: the stack matches the shown child and every commit is valid. */
  lemma StepKeepsInv(a: AppState, i: Input, cfg: Config)
    requires Inv(a, cfg)
    ensures Inv(Step(a, i, cfg), cfg)
  {
    var b := Step(a, i, cfg);
    match i
    case BrainPress(act) =>
      if act in a.registered && Flickers(act) {
        ActionKeepsInv(a, act, cfg);
        assert b == Restart(a, Perform(a, act, cfg), cfg);
      } else {
        assert b == a;
      }
    case Touch(act) =>
      if act in a.registered {
        ActionKeepsInv(a, act, cfg);
        assert b == Restart(a, Perform(a, act, cfg), cfg);
      } else {
        assert b == a;
      }
    case KeyPress(id) =>
      if Top(a) == Some(KeyboardSurface) {
        KeyKeepsInv(a, id, cfg);
        assert b == Restart(a, a.(coord := Speller.CustomKeyPress(a.coord, id, cfg.delegates).1), cfg);
      } else {
        assert b == a;
      }
    case PinchGesture(ph, below) =>
      PinchKeepsInv(a, ph, below, cfg);
      assert b == Restart(a, a.(coord := Pinch(a.coord, ph, below, cfg.delegates)), cfg);
    case DoubleTap =>
      if a.coord.shown == Some(Sleep) {
        SleepTapKeepsInv(a, cfg);
        var r := Sleep.DoubleTap(cfg.loc, a.sleep, a.coord, cfg.delegates);
        assert b == Restart(a, a.(sleep := r.0, coord := r.1), cfg);
      } else {
        assert b == a;
      }
    case EditSetting(t, v) =>
      if Set(a.settings, t, v).Ok? {
        EditKeepsInv(a, t, v, cfg);
        assert b == a.(settings := Set(a.settings, t, v).value);
      } else {
        assert b == a;
      }
    case ModeChanged(m) =>
      ModeChangeKeepsInv(a, m, cfg);
      assert b == a.(mode := m);
  }

  lemma ModeChangeKeepsInv(a: AppState, m: Mode, cfg: Config)
    requires Inv(a, cfg)
    ensures Inv(a.(mode := m), cfg)
  {
    assert Top(a.(mode := m)) == Top(a);
  }

  lemma KeyKeepsInv(a: AppState, id: string, cfg: Config)
    requires Inv(a, cfg) && Top(a) == Some(KeyboardSurface)
    ensures Inv(Restart(a, a.(coord := Speller.CustomKeyPress(a.coord, id, cfg.delegates).1), cfg), cfg)
  {
    GoHomeFromSpellerKeepsInv(a, id, cfg);
    RestartKeepsInv(a, a.(coord := Speller.CustomKeyPress(a.coord, id, cfg.delegates).1), cfg);
  }

  lemma PinchKeepsInv(a: AppState, ph: PinchPhase, below: bool, cfg: Config)
    requires Inv(a, cfg)
    ensures Inv(Restart(a, a.(coord := Pinch(a.coord, ph, below, cfg.delegates)), cfg), cfg)
  {
    if (ph == Began || ph == Changed) && below && a.coord.shown.None? {
      ShowKeepsInv(a, Some(YesNo), cfg);
    }
    RestartKeepsInv(a, a.(coord := Pinch(a.coord, ph, below, cfg.delegates)), cfg);
  }

  lemma SleepTapKeepsInv(a: AppState, cfg: Config)
    requires Inv(a, cfg) && a.coord.shown == Some(Sleep)
    ensures var r := Sleep.DoubleTap(cfg.loc, a.sleep, a.coord, cfg.delegates);
      Inv(Restart(a, a.(sleep := r.0, coord := r.1), cfg), cfg)
  {
    DoubleTapKeepsInv(a, cfg);
    var r := Sleep.DoubleTap(cfg.loc, a.sleep, a.coord, cfg.delegates);
    RestartKeepsInv(a, a.(sleep := r.0, coord := r.1), cfg);
  }

  lemma EditKeepsInv(a: AppState, t: string, v: Value, cfg: Config)
    requires Inv(a, cfg) && Set(a.settings, t, v).Ok?
    ensures Inv(a.(settings := Set(a.settings, t, v).value), cfg)
  {
    SetKeepsShape(cfg.loc, a.settings, t, v);
    SettingsChangeKeepsFits(a, Set(a.settings, t, v).value, cfg);
  }

  /** Firing a registered action, then restarting control, keeps the invariant. */
  lemma ActionKeepsInv(a: AppState, act: Action, cfg: Config)
    requires Inv(a, cfg) && act in a.registered
    ensures Inv(Restart(a, Perform(a, act, cfg), cfg), cfg)
  {
    PerformKeepsInv(a, act, cfg);
    RestartKeepsInv(a, Perform(a, act, cfg), cfg);
  }

  /** Only Home's registrations read the settings, and Home keeps its captured ones. */
  lemma SettingsChangeKeepsFits(a: AppState, s: Store, cfg: Config)
    requires Fits(a, cfg)
    ensures Fits(a.(settings := s), cfg)
  {
    var b := a.(settings := s);
    assert Top(b) == Top(a) && b.registered == a.registered && b.sleep == a.sleep;
  }

  /**
    Whatever the inputs, with every child a delegate: the coordinator owns
    one entry per shown child (none when home), Home's entry is never popped,
    the Sleep screen is in alarm mode only while shown, and the control
    layer has only ever been shown valid stacks.
  */
  lemma {:induction false} RunKeepsInv(a: AppState, inputs: seq<Input>, cfg: Config)
    requires Inv(a, cfg)
    ensures Inv(Run(a, inputs, cfg), cfg)
    decreases |inputs|
  {
    if inputs != [] {
      StepKeepsInv(a, inputs[0], cfg);
      RunKeepsInv(Step(a, inputs[0], cfg), inputs[1..], cfg);
    }
  }

  /** The Sleep screen is only ever left by going home, and then alarm mode is off. */
  lemma SleepLeftOnlyWithAlarmOff(a: AppState, i: Input, cfg: Config)
    requires Inv(a, cfg) && a.coord.shown == Some(Sleep)
    requires Step(a, i, cfg).coord.shown != Some(Sleep)
    ensures Step(a, i, cfg).coord.shown.None?
    ensures !Step(a, i, cfg).sleep.alarmOn
    ensures i == BrainPress(SleepGoHome) || i == Touch(SleepGoHome) || i == DoubleTap
  {
    assert Top(a) == Some(ChildSurface(Sleep));
    match i
    case BrainPress(act) =>
      RestartOnlyRegisters(a, Perform(a, act, cfg), cfg);
      if act in a.registered {
        SleepActionGoesHome(a, act, cfg);
      }
    case Touch(act) =>
      RestartOnlyRegisters(a, Perform(a, act, cfg), cfg);
      if act in a.registered {
        SleepActionGoesHome(a, act, cfg);
      }
    case DoubleTap =>
      var r := Sleep.DoubleTap(cfg.loc, a.sleep, a.coord, cfg.delegates);
      RestartOnlyRegisters(a, a.(sleep := r.0, coord := r.1), cfg);
      DoubleTapKeepsInv(a, cfg);
    case _ =>
  }

  /** Restarting control changes only the registered actions. */
  lemma RestartOnlyRegisters(a: AppState, b: AppState, cfg: Config)
    ensures Restart(a, b, cfg) == b.(registered := Restart(a, b, cfg).registered)
  {
  }

  /** On the Sleep screen, the only registered action that leaves it is going home, with alarm mode off. */
  lemma SleepActionGoesHome(a: AppState, act: Action, cfg: Config)
    requires Inv(a, cfg) && a.coord.shown == Some(Sleep)
    requires act in a.registered
    ensures Perform(a, act, cfg).coord.shown != Some(Sleep) ==>
      act == SleepGoHome && !a.sleep.alarmOn && Perform(a, act, cfg).coord.shown.None?
  {
    assert Top(a) == Some(ChildSurface(Sleep));
    assert act in Sleep.Registered(a.sleep);
  }

  /** Only sleep, speller, pinch, close and going home change the shown child; close needs a touch. */
  lemma ShownChangesOnlyByNavigation(a: AppState, i: Input, cfg: Config)
    requires Inv(a, cfg)
    requires Step(a, i, cfg).coord.shown != a.coord.shown
    ensures i in {BrainPress(OpenSleep), BrainPress(OpenSpeller), BrainPress(SleepGoHome),
                  Touch(OpenSleep), Touch(OpenSpeller), Touch(CloseYesNo), Touch(SleepGoHome),
                  KeyPress(Speller.HomeKeyId), DoubleTap}
      || (i.PinchGesture? && Step(a, i, cfg).coord.shown == Some(YesNo))
  {
    match i
    case BrainPress(act) =>
      assert act in a.registered && Flickers(act);
      match act {
        case OpenSleep =>
        case OpenSpeller =>
        case SleepGoHome =>
        case _ =>
      }
    case Touch(act) =>
      assert act in a.registered;
      match act {
        case OpenSleep =>
        case OpenSpeller =>
        case CloseYesNo =>
        case SleepGoHome =>
        case _ =>
      }
    case KeyPress(id) =>
      assert id == Speller.HomeKeyId;
    case PinchGesture(ph, below) =>
    case DoubleTap =>
    case EditSetting(t, v) =>
    case ModeChanged(m) =>
  }

  /**
    Touching close on the Yes/No screen goes home and does nothing else: no
    effect, no edit, no change of mode; Home registers its actions afresh.
  */
  lemma CloseYesNoOnlyGoesHome(a: AppState, cfg: Config)
    requires Inv(a, cfg) && a.coord.shown == Some(YesNo)
    ensures var b := Step(a, Touch(CloseYesNo), cfg);
      b.coord.shown.None? && b.coord.gw.stack == [HomeSurface]
      && b.effects == a.effects && b.settings == a.settings && b.sleep == a.sleep && b.mode == a.mode
      && b.registered == HomeActions(a.settings, cfg.loc)
  {
    assert Top(a) == Some(ChildSurface(YesNo));
    assert CloseYesNo in a.registered;
    var p := Perform(a, CloseYesNo, cfg);
    assert p == a.(coord := Show(a.coord, None, cfg.delegates));
    ShowKeepsInv(a, None, cfg);
    assert p.coord.gw.stack == [HomeSurface] != a.coord.gw.stack;
    assert Step(a, Touch(CloseYesNo), cfg) == Activate(p, cfg);
    assert Top(p) == Some(HomeSurface);
  }

  /** The buttons kept out of flickering cannot be brain-pressed: such a press changes nothing. */
  lemma BrainPressNeedsFlicker(a: AppState, act: Action, cfg: Config)
    requires Inv(a, cfg)
    ensures Step(a, BrainPress(act), cfg) != a ==> act in a.registered && Flickers(act)
    ensures Step(a, BrainPress(OpenHelpPage), cfg) == a && Step(a, BrainPress(CloseYesNo), cfg) == a
  {
  }

  /** The help page is only ever opened by touching Home's help button. */
  lemma HelpOnlyByTouch(a: AppState, i: Input, cfg: Config)
    requires Inv(a, cfg)
    requires Step(a, i, cfg).effects == a.effects + [OpenHelp]
    ensures i == Touch(OpenHelpPage) && a.coord.shown.None?
  {
    match i
    case BrainPress(act) =>
      assert act in a.registered && Flickers(act);
      EmittedOnly(a, act, cfg);
    case Touch(act) =>
      EmittedOnly(a, act, cfg);
      HelpRegisteredOnlyAtHome(a, cfg);
    case _ =>
  }

  /** Only Home registers the help action. */
  lemma HelpRegisteredOnlyAtHome(a: AppState, cfg: Config)
    requires Inv(a, cfg)
    ensures OpenHelpPage in a.registered ==> a.coord.shown.None?
  {
    if Top(a) != Some(HomeSurface) {
      assert OpenHelpPage !in Registered(a, cfg);
    }
  }

  /** The effect list an action leaves: exactly `OpenHelp` added only for the help action. */
  lemma EmittedOnly(a: AppState, act: Action, cfg: Config)
    ensures var b := Restart(a, Perform(a, act, cfg), cfg);
      b.effects == a.effects + [OpenHelp] <==> act == OpenHelpPage
  {
    var x := a.effects;
    match act
    case EnterBrain => AppendedOther(x, [EnterBrainControl]);
    case SoundAlarm => AppendedOther(x, [PlayAlarm]);
    case OpenSettingsPage => AppendedOther(x, [OpenSettings]);
    case SpeakTitle(_, t) => AppendedOther(x, [Say(t)]);
    case YesPressed => AppendedOther(x, YesNo.IfNotTrainingSpeak(a.mode, Some(cfg.loc.yesNoYes)));
    case NoPressed => AppendedOther(x, YesNo.IfNotTrainingSpeak(a.mode, Some(cfg.loc.yesNoNo)));
    case SleepAlarm => AppendedOther(x, [PlayAlarm]);
    case _ =>
  }

  lemma AppendedOther(x: seq<Effect>, es: seq<Effect>)
    requires OpenHelp !in es
    ensures x + es != x + [OpenHelp]
  {
    assert (x + es)[|x|..] == es;
    assert (x + [OpenHelp])[|x|..] == [OpenHelp];
  }
}
