/**
  The Home screen (`HomeViewController`): the coordinator that shows at most
  one of three pre-built child screens and keeps the gateway's stack in step,
  the pinch gesture, the visibility of the two sentence views, the actions
  the home page registers, and the settings it observes.
*/
module Home {
  import opened Wrappers
  import opened ControlGateway
  import opened SettingsStore
  import opened Localization
  import opened NovaSettings
  import opened Controls

  /** The three child screens built at start-up. */
  datatype Child = Speller | YesNo | Sleep

  /** The entries this app places on the gateway's stack. */
  datatype Surface = HomeSurface | ChildSurface(child: Child) | KeyboardSurface

  type Gw = Gateway<Surface>

  /** `shownSubVC` and the gateway it drives. */
  datatype Coord = Coord(shown: Option<Child>, gw: Gw)

  /** Every child the coordinator can show; all are registered at start-up. */
  const Children: set<Child> := {Speller, YesNo, Sleep}

  /** Home has appeared and pushed its own entry. */
  function Initial(): (c: Coord)
    ensures c.shown.None? && c.gw.stack == [HomeSurface] && c.gw.depth == 0
    ensures Commits(c.gw.trace) == [[HomeSurface]]
  {
    var e: Gw := Empty();
    var g := Push(e, HomeSurface);
    assert Commits(g.trace) == [[HomeSurface]] by {
      assert e.stack + [HomeSurface] == [HomeSurface] && e.trace + [Pushed(HomeSurface)] == [Pushed(HomeSurface)];
      assert g.trace == [Pushed(HomeSurface), Committed([HomeSurface])];
      assert g.trace[1..][1..] == [];
      assert Commits(g.trace[1..]) == [[HomeSurface]] + Commits(g.trace[1..][1..]);
    }
    Coord(None, g)
  }

  /** The calls a change of shown child makes inside its batch. */
  function ShowOps(prev: Option<Child>, next: Option<Child>, delegates: set<Child>): seq<Event<Surface>>
  {
    (if prev.Some? then [Popped] else [])
      + (if next.Some? && next.value in delegates then [Pushed(ChildSurface(next.value))] else [])
  }

  /**
    Assigning `shownSubVC`. The same child again changes nothing. Otherwise,
    in one batch, the old child's entry is popped (unconditionally) and the
    new child's entry is pushed when it is a control delegate.
  */
  function Show(c: Coord, next: Option<Child>, delegates: set<Child>): (r: Coord)
    ensures next == c.shown ==> r == c
    ensures next != c.shown ==> r.shown == next
    ensures r.gw.depth == c.gw.depth
    ensures next != c.shown ==> (r.gw.stack ==
      (if c.shown.Some? then Pop(c.gw).stack else c.gw.stack)
        + (if next.Some? && next.value in delegates then [ChildSurface(next.value)] else []))
    ensures next != c.shown ==> (r.gw.trace == c.gw.trace + ShowOps(c.shown, next, delegates)
        + (if c.gw.depth == 0 then [Committed(r.gw.stack)] else []))
  {
    if next == c.shown then c
    else
      var g0 := BeginBatch(c.gw);
      var g1 := if c.shown.Some? then Pop(g0) else g0;
      var g2 := if next.Some? && next.value in delegates then Push(g1, ChildSurface(next.value)) else g1;
      Coord(next, EndBatch(g2))
  }

  function GoHome(c: Coord, delegates: set<Child>): (r: Coord)
    ensures r.shown.None?
  {
    Show(c, None, delegates)
  }

  /** The stack the coordinator owns above `base`: nothing, or the shown child's entry. */
  function Owned(base: seq<Surface>, shown: Option<Child>): seq<Surface>
  {
    base + (if shown.Some? then [ChildSurface(shown.value)] else [])
  }

  /** Showing the child already shown is a no-op, so a second identical call does nothing. */
  lemma ShowIdempotent(c: Coord, x: Option<Child>, delegates: set<Child>)
    ensures Show(Show(c, x, delegates), x, delegates) == Show(c, x, delegates)
    ensures Show(c, c.shown, delegates) == c
  {
  }

  /** A swap of child A for child B is one pop then one push, committed once, together. */
  lemma SwapIsOnePopThenOnePush(c: Coord, a: Child, b: Child, delegates: set<Child>)
    requires c.shown == Some(a) && a != b && b in delegates && c.gw.depth == 0
    requires c.gw.stack != []
    ensures var r := Show(c, Some(b), delegates);
      r.gw.trace == c.gw.trace + [Popped, Pushed(ChildSurface(b)), Committed(r.gw.stack)]
      && r.gw.stack == c.gw.stack[..|c.gw.stack| - 1] + [ChildSurface(b)]
  {
  }

  /** From no child to a delegate child: no pop, one push. */
  lemma OpenFromHomeIsOnePush(c: Coord, b: Child, delegates: set<Child>)
    requires c.shown.None? && b in delegates && c.gw.depth == 0
    ensures var r := Show(c, Some(b), delegates);
      r.gw.trace == c.gw.trace + [Pushed(ChildSurface(b)), Committed(c.gw.stack + [ChildSurface(b)])]
  {
  }

  /**
    Showing a different child shows the control layer exactly one new stack
    when no batch is open, and none while an outer batch is open.
  */
  lemma ShowCommitsOnce(c: Coord, next: Option<Child>, delegates: set<Child>)
    requires next != c.shown
    ensures var r := Show(c, next, delegates);
      Commits(r.gw.trace) == Commits(c.gw.trace) + (if c.gw.depth == 0 then [r.gw.stack] else [])
  {
    var r := Show(c, next, delegates);
    var ops := ShowOps(c.shown, next, delegates);
    var close: seq<Event<Surface>> := if c.gw.depth == 0 then [Committed(r.gw.stack)] else [];
    assert Commits(ops) == [] by {
      if |ops| > 0 {
        assert ops[1..] == [] || ops[1..] == [ops[1]];
      }
    }
    assert Commits(close) == (if c.gw.depth == 0 then [r.gw.stack] else []);
    CommitsAppend(c.gw.trace, ops);
    CommitsAppend(c.gw.trace + ops, close);
  }

  /** Going home from a child: one pop, no push. */
  lemma GoHomeIsOnePop(c: Coord, delegates: set<Child>)
    requires c.shown.Some? && c.gw.depth == 0
    ensures var r := GoHome(c, delegates);
      r.gw.trace == c.gw.trace + [Popped, Committed(r.gw.stack)]
      && (c.gw.stack != [] ==> r.gw.stack == c.gw.stack[..|c.gw.stack| - 1])
  {
  }

  /**
    Stack balance: when every child is a control delegate, the coordinator
    owns no entry without a child and exactly the child's entry with one,
    after every show.
  */
  lemma ShowKeepsBalance(c: Coord, base: seq<Surface>, next: Option<Child>)
    requires c.gw.stack == Owned(base, c.shown)
    ensures Show(c, next, Children).gw.stack == Owned(base, next)
  {
    if next != c.shown {
      var popped := if c.shown.Some? then Pop(c.gw).stack else c.gw.stack;
      assert popped == base by {
        if c.shown.Some? {
          assert |c.gw.stack| == |base| + 1;
          assert c.gw.stack[..|base|] == base;
        }
      }
      if next.Some? {
        assert next.value in Children by {
          match next.value
          case Speller =>
          case YesNo =>
          case Sleep =>
        }
      }
    }
  }

  /**
    The push is conditional on the delegate capability but the pop is not:
    with a child that is not a delegate, showing it and going home pops the
    Home screen's own entry.
  */
  lemma NonDelegateChildBreaksBalance()
    ensures var c := Show(Initial(), Some(Sleep), {Speller, YesNo});
      GoHome(c, {Speller, YesNo}).gw.stack == []
  {
  }

  /** Which gesture phases act on a pinch. */
  datatype PinchPhase = Began | Changed | Ended | OtherPhase

  /** A pinch opens Yes/No only while it is in progress, below half scale, and no child is shown. */
  function Pinch(c: Coord, phase: PinchPhase, scaleBelowHalf: bool, delegates: set<Child>): (r: Coord)
    ensures (phase == Began || phase == Changed) && scaleBelowHalf && c.shown.None? ==> r.shown == Some(YesNo)
    ensures !((phase == Began || phase == Changed) && scaleBelowHalf && c.shown.None?) ==> r == c
  {
    if (phase == Began || phase == Changed) && scaleBelowHalf && c.shown.None? then
      Show(c, Some(YesNo), delegates)
    else c
  }

  /** Whether the default (three-sentence) and alternative (nine-sentence) views are hidden. */
  datatype SentenceViews = SentenceViews(defaultHidden: bool, altHidden: bool)

  function Visibility(s: Store, loc: Strings): (r: SentenceViews)
    ensures r.defaultHidden != r.altHidden
    ensures !r.altHidden <==> Find(s, loc.use9SentencesTitle) == Some(BoolValue(true))
  {
    var alt := BoolFor(s, loc.use9SentencesTitle);
    SentenceViews(alt, !alt)
  }

  /** A speak action is registered only for a button that has a title. */
  function SpeakIfTitled(b: SpeakButton, title: Option<string>): seq<Action>
  {
    if title.Some? then [SpeakTitle(b, title.value)] else []
  }

  function SentenceButtonFor(alt: bool, k: int): SpeakButton
  {
    if alt then AltSentenceButton(k) else SentenceButton(k)
  }

  /** Speak actions for consecutive sentence buttons from `k`, one for each text that is present. */
  function SpeakEach(alt: bool, k: int, texts: seq<Option<string>>): seq<Action>
    decreases |texts|
  {
    if texts == [] then []
    else SpeakIfTitled(SentenceButtonFor(alt, k), texts[0]) + SpeakEach(alt, k + 1, texts[1..])
  }

  /** The stored texts of sentences `k..last`, read through their titles. */
  function SentenceTexts(s: Store, loc: Strings, k: int, last: int): (r: seq<Option<string>>)
    requires 1 <= k && last <= 9
    ensures |r| == if k <= last then last - k + 1 else 0
  {
    if k > last then []
    else seq(last - k + 1, i requires 0 <= i < last - k + 1 => TextFor(s, SentenceTitle(loc, k + i)))
  }

  /** Entry `i` of the sentence texts is the text stored for sentence `k + i`. */
  lemma SentenceTextAt(s: Store, loc: Strings, k: int, last: int, i: int)
    requires 1 <= k && last <= 9 && 0 <= i <= last - k
    ensures SentenceTexts(s, loc, k, last)[i] == TextFor(s, SentenceTitle(loc, k + i))
  {
  }

  /** Speak actions for the sentence buttons `k..last`, titled from the store. */
  function SpeakRange(s: Store, loc: Strings, alt: bool, k: int, last: int): seq<Action>
    requires 1 <= k && last <= 9
  {
    SpeakEach(alt, k, SentenceTexts(s, loc, k, last))
  }

  lemma SpeakRangeExactly(s: Store, loc: Strings, alt: bool, k: int, last: int, b: SpeakButton, t: string)
    requires 1 <= k && last <= 9
    ensures SpeakTitle(b, t) in SpeakRange(s, loc, alt, k, last) <==>
      exists j :: k <= j <= last && b == SentenceButtonFor(alt, j) && TextFor(s, SentenceTitle(loc, j)) == Some(t)
  {
    if SpeakTitle(b, t) in SpeakRange(s, loc, alt, k, last) {
      var j := SpeakRangeWitness(s, loc, alt, k, last, b, t);
    }
    if exists j :: k <= j <= last && b == SentenceButtonFor(alt, j) && TextFor(s, SentenceTitle(loc, j)) == Some(t) {
      var j :| k <= j <= last && b == SentenceButtonFor(alt, j) && TextFor(s, SentenceTitle(loc, j)) == Some(t);
      SpeakRangeComplete(s, loc, alt, k, last, j, b, t);
    }
  }

  /** The sentence a speak action in the range was registered for. */
  lemma SpeakRangeWitness(s: Store, loc: Strings, alt: bool, k: int, last: int, b: SpeakButton, t: string) returns (j: int)
    requires 1 <= k && last <= 9
    requires SpeakTitle(b, t) in SpeakRange(s, loc, alt, k, last)
    ensures k <= j <= last && b == SentenceButtonFor(alt, j) && TextFor(s, SentenceTitle(loc, j)) == Some(t)
  {
    var i := SpeakEachIndex(alt, k, SentenceTexts(s, loc, k, last), b, t);
    SentenceTextAt(s, loc, k, last, i);
    j := k + i;
  }

  lemma SpeakRangeComplete(s: Store, loc: Strings, alt: bool, k: int, last: int, j: int, b: SpeakButton, t: string)
    requires 1 <= k <= j <= last <= 9
    requires b == SentenceButtonFor(alt, j) && TextFor(s, SentenceTitle(loc, j)) == Some(t)
    ensures SpeakTitle(b, t) in SpeakRange(s, loc, alt, k, last)
  {
    var texts := SentenceTexts(s, loc, k, last);
    SentenceTextAt(s, loc, k, last, j - k);
    SpeakEachComplete(alt, k, texts, j - k, b, t);
  }

  /** The position, among `texts`, of the button a speak action was registered for. */
  lemma {:induction false} SpeakEachIndex(alt: bool, k: int, texts: seq<Option<string>>, b: SpeakButton, t: string)
    returns (i: int)
    requires SpeakTitle(b, t) in SpeakEach(alt, k, texts)
    ensures 0 <= i < |texts| && b == SentenceButtonFor(alt, k + i) && texts[i] == Some(t)
    decreases |texts|
  {
    if SpeakTitle(b, t) in SpeakIfTitled(SentenceButtonFor(alt, k), texts[0]) {
      i := 0;
    } else {
      var i' := SpeakEachIndex(alt, k + 1, texts[1..], b, t);
      i := i' + 1;
    }
  }

  /** Every present text gets its button's speak action. */
  lemma {:induction false} SpeakEachComplete(alt: bool, k: int, texts: seq<Option<string>>, i: int, b: SpeakButton, t: string)
    requires 0 <= i < |texts| && b == SentenceButtonFor(alt, k + i) && texts[i] == Some(t)
    ensures SpeakTitle(b, t) in SpeakEach(alt, k, texts)
    decreases i
  {
    var head := SpeakIfTitled(SentenceButtonFor(alt, k), texts[0]);
    assert SpeakEach(alt, k, texts) == head + SpeakEach(alt, k + 1, texts[1..]);
    if i == 0 {
      assert SpeakTitle(b, t) in head;
    } else {
      assert texts[1..][i - 1] == Some(t);
      SpeakEachComplete(alt, k + 1, texts[1..], i - 1, b, t);
    }
  }

  /** The speak actions of the sentence buttons: 1-3 normally, the alternative 1-9 with nine sentences. */
  function SentenceActions(s: Store, loc: Strings): seq<Action>
  {
    if !BoolFor(s, loc.use9SentencesTitle) then SpeakRange(s, loc, false, 1, 3)
    else SpeakRange(s, loc, true, 1, 9)
  }

  function YesNoActions(loc: Strings): seq<Action>
  {
    SpeakIfTitled(HomeYesButton, Some(loc.homeYes)) + SpeakIfTitled(HomeNoButton, Some(loc.homeNo))
  }

  const NavigationActions: seq<Action> := [OpenSleep, EnterBrain, SoundAlarm, OpenSettingsPage, OpenHelpPage, OpenSpeller]

  /** The actions the home page registers when it becomes active. */
  function HomeActions(s: Store, loc: Strings): seq<Action>
  {
    NavigationActions + SentenceActions(s, loc) + YesNoActions(loc)
  }

  lemma SentenceSpeakRule(s: Store, loc: Strings, b: SpeakButton, t: string)
    ensures b.SentenceButton? ==>
      (SpeakTitle(b, t) in SentenceActions(s, loc) <==>
        1 <= b.k <= 3 && !BoolFor(s, loc.use9SentencesTitle) && TextFor(s, SentenceTitle(loc, b.k)) == Some(t))
    ensures b.AltSentenceButton? ==>
      (SpeakTitle(b, t) in SentenceActions(s, loc) <==>
        1 <= b.k <= 9 && BoolFor(s, loc.use9SentencesTitle) && TextFor(s, SentenceTitle(loc, b.k)) == Some(t))
    ensures !b.SentenceButton? && !b.AltSentenceButton? ==> SpeakTitle(b, t) !in SentenceActions(s, loc)
  {
    if !BoolFor(s, loc.use9SentencesTitle) {
      SpeakRangeExactly(s, loc, false, 1, 3, b, t);
    } else {
      SpeakRangeExactly(s, loc, true, 1, 9, b, t);
    }
  }

  /**
    Speaking is registered on sentence buttons 1-3 when the nine-sentence
    option is off, on alternative buttons 1-9 when it is on, on yes and no
    always, and never on a button without a title.
  */
  lemma HomeSpeakRule(s: Store, loc: Strings, b: SpeakButton, t: string)
    ensures b.SentenceButton? ==>
      (SpeakTitle(b, t) in HomeActions(s, loc) <==>
        1 <= b.k <= 3 && !BoolFor(s, loc.use9SentencesTitle) && TextFor(s, SentenceTitle(loc, b.k)) == Some(t))
    ensures b.AltSentenceButton? ==>
      (SpeakTitle(b, t) in HomeActions(s, loc) <==>
        1 <= b.k <= 9 && BoolFor(s, loc.use9SentencesTitle) && TextFor(s, SentenceTitle(loc, b.k)) == Some(t))
    ensures b == HomeYesButton ==> (SpeakTitle(b, t) in HomeActions(s, loc) <==> t == loc.homeYes)
    ensures b == HomeNoButton ==> (SpeakTitle(b, t) in HomeActions(s, loc) <==> t == loc.homeNo)
  {
    var a := SpeakTitle(b, t);
    assert a in HomeActions(s, loc) <==> a in SentenceActions(s, loc) || a in YesNoActions(loc);
    SentenceSpeakRule(s, loc, b, t);
  }

  /** The navigation actions are registered whatever the settings. */
  lemma HomeNavigationAlwaysRegistered(s: Store, loc: Strings)
    ensures HomeActions(s, loc)[..|NavigationActions|] == NavigationActions
    ensures forall a :: a in HomeActions(s, loc) ==> a in NavigationActions || a.SpeakTitle?
  {
    var sa := SentenceActions(s, loc);
    assert forall a :: a in sa ==> a.SpeakTitle? by {
      if !BoolFor(s, loc.use9SentencesTitle) {
        SpeakRangeOnlySpeaks(s, loc, false, 1, 3);
      } else {
        SpeakRangeOnlySpeaks(s, loc, true, 1, 9);
      }
    }
    var rest := sa + YesNoActions(loc);
    assert HomeActions(s, loc) == NavigationActions + rest;
    assert (NavigationActions + rest)[..|NavigationActions|] == NavigationActions;
  }

  lemma SpeakRangeOnlySpeaks(s: Store, loc: Strings, alt: bool, k: int, last: int)
    requires 1 <= k && last <= 9
    ensures forall a :: a in SpeakRange(s, loc, alt, k, last) ==> a.SpeakTitle?
  {
    SpeakEachOnlySpeaks(alt, k, SentenceTexts(s, loc, k, last));
  }

  lemma {:induction false} SpeakEachOnlySpeaks(alt: bool, k: int, texts: seq<Option<string>>)
    ensures forall a :: a in SpeakEach(alt, k, texts) ==> a.SpeakTitle?
    decreases |texts|
  {
    if texts != [] {
      SpeakEachOnlySpeaks(alt, k + 1, texts[1..]);
    }
  }

  /** Titles observed by the Home screen: the app's ten, and two colour titles of the library. */
  datatype Subscribed = AppTitle(title: string) | LibraryColourTitle(name: int)

  function HomeSubscriptions(loc: Strings): seq<Subscribed>
  {
    seq(10, i requires 0 <= i < 10 => AppTitle(NovaTitles(loc)[i]))
      + [LibraryColourTitle(0), LibraryColourTitle(1)]
  }

  /** Every successful edit of a well-shaped app store is of a title the Home screen observes. */
  lemma EveryAppEditIsObserved(loc: Strings, s: Store, t: string, v: Value)
    requires WellShaped(loc, s) && Set(s, t, v).Ok?
    ensures AppTitle(t) in HomeSubscriptions(loc)
  {
    var i := IndexOf(s, t).value;
    assert Titles(s)[i] == t;
    assert HomeSubscriptions(loc)[i] == AppTitle(t);
  }
}
