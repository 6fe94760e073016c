/**
  The settings editor's page structure (`SettingsViewController`): five pages,
  three drawn from the control library's stores and two from the app store,
  combined into one list page.
*/
module SettingsPages {
  import opened Wrappers
  import opened SettingsStore
  import opened Localization
  import opened NovaSettings

  /** Settings owned by the control library and its keyboard, named by their titles there. */
  datatype ExternalSetting =
    | Voice | SpeechRate | ClickSoundOnPress | SoundAlarmWhenDisconnecting | EnableOtherSounds
    | KeyboardLayout | AutoCompleteMode | LanguageCodeWordCompletion
    | TimeInBetweenTrials | CertaintyRequiredForPress

  datatype ExternalStore = NoiseTaggingSettings | KeyboardSettings

  datatype Item = External(store: ExternalStore, name: ExternalSetting) | App(setting: Setting)

  datatype PageName = SoundPage | KeyboardPage | HomeScreen1 | HomeScreen2 | BrainPresses

  datatype Page = Page(name: PageName, items: seq<Item>)

  /** The top-level list page and its sub-pages. */
  datatype ListPage = ListPage(subPages: seq<Page>)

  function FromExternal(store: ExternalStore, names: seq<ExternalSetting>): (r: seq<Item>)
    ensures |r| == |names|
    ensures forall i :: 0 <= i < |r| ==> r[i] == External(store, names[i])
  {
    seq(|names|, i requires 0 <= i < |names| => External(store, names[i]))
  }

  function FromApp(s: Store, titles: seq<string>): (r: seq<Item>)
    ensures forall it :: it in r ==> it.App? && it.setting in s
  {
    var xs := SettingsWith(s, titles);
    seq(|xs|, i requires 0 <= i < |xs| => App(xs[i]))
  }

  function SentenceTitles(loc: Strings, from: int, to: int): (r: seq<string>)
    requires 1 <= from <= to + 1 <= 10
    ensures |r| == to - from + 1
  {
    seq(to - from + 1, i requires 0 <= i < to - from + 1 => SentenceTitle(loc, from + i))
  }

  /** The sub-pages in the order they are appended. */
  function PagesSettings(app: Store, loc: Strings): seq<Page>
  {
    [ Page(SoundPage, FromExternal(NoiseTaggingSettings,
        [Voice, SpeechRate, ClickSoundOnPress, SoundAlarmWhenDisconnecting, EnableOtherSounds])),
      Page(KeyboardPage, FromExternal(KeyboardSettings,
        [KeyboardLayout, AutoCompleteMode, LanguageCodeWordCompletion])),
      Page(HomeScreen1, FromApp(app, [loc.use9SentencesTitle] + SentenceTitles(loc, 1, 3))),
      Page(HomeScreen2, FromApp(app, SentenceTitles(loc, 4, 9))),
      Page(BrainPresses, FromExternal(NoiseTaggingSettings,
        [TimeInBetweenTrials, CertaintyRequiredForPress])) ]
  }

  function PageSettings(app: Store, loc: Strings): ListPage
  {
    ListPage(PagesSettings(app, loc))
  }

  function AppItems(s: Store): seq<Item>
  {
    seq(|s|, i requires 0 <= i < |s| => App(s[i]))
  }

  /** In a store with unique titles, a title is found exactly where it sits. */
  lemma UniqueIndexOf(s: Store, t: string, i: nat)
    requires UniqueTitles(s) && i < |s| && s[i].title == t
    ensures HasTitle(s, t) && IndexOf(s, t) == Some(i)
  {
    var j := IndexOf(s, t).value;
    assert !(j < i) && !(i < j);
  }

  lemma SliceTitlesFound(s: Store, titles: seq<string>, lo: nat)
    requires UniqueTitles(s) && lo + |titles| <= |s|
    requires forall i :: 0 <= i < |titles| ==> s[lo + i].title == titles[i]
    ensures forall k :: 0 <= k < |titles| ==> IndexOf(s, titles[k]) == Some(lo + k)
  {
    forall k | 0 <= k < |titles|
      ensures IndexOf(s, titles[k]) == Some(lo + k)
    {
      assert s[lo + k].title == titles[k];
      UniqueIndexOf(s, titles[k], lo + k);
    }
  }

  /** Titles found at consecutive positions select exactly that slice. */
  lemma SettingsWithFound(s: Store, titles: seq<string>, lo: nat)
    requires lo + |titles| <= |s|
    requires forall k :: 0 <= k < |titles| ==> IndexOf(s, titles[k]) == Some(lo + k)
    ensures SettingsWith(s, titles) == s[lo..lo + |titles|]
  {
    SettingsWithSelects(s, titles);
    var r := SettingsWith(s, titles);
    forall k | 0 <= k < |r| ensures lo + k < |s| && r[k] == s[lo + k] {
      assert r[k] == s[IndexOf(s, titles[k]).value];
    }
    SliceByEntries(r, s, lo);
  }

  /** A sequence that agrees entry by entry with a stretch of `s` is that slice. */
  lemma SliceByEntries<T>(r: seq<T>, s: seq<T>, lo: nat)
    requires lo + |r| <= |s|
    requires forall k :: 0 <= k < |r| ==> r[k] == s[lo + k]
    ensures r == s[lo..lo + |r|]
  {
  }

  /** Selecting titles that sit at consecutive positions of a unique store yields that slice. */
  lemma SettingsWithSlice(s: Store, titles: seq<string>, lo: nat)
    requires UniqueTitles(s) && lo + |titles| <= |s|
    requires forall i :: 0 <= i < |titles| ==> s[lo + i].title == titles[i]
    ensures SettingsWith(s, titles) == s[lo..lo + |titles|]
  {
    SliceTitlesFound(s, titles, lo);
    SettingsWithFound(s, titles, lo);
  }

  /**
    There are five sub-pages in the order sound, keyboard, home screen 1, home
    screen 2, brain presses, and the list page holds exactly them. The pages
    for sound, keyboard and brain presses draw only from the library's stores.
  */
  lemma PageOrder(app: Store, loc: Strings)
    ensures |PagesSettings(app, loc)| == 5
    ensures PageSettings(app, loc).subPages == PagesSettings(app, loc)
    ensures forall i :: 0 <= i < 5 ==>
      PagesSettings(app, loc)[i].name == [SoundPage, KeyboardPage, HomeScreen1, HomeScreen2, BrainPresses][i]
    ensures forall i :: i in {0, 1, 4} ==> forall it :: it in PagesSettings(app, loc)[i].items ==> it.External?
    ensures forall i :: i in {2, 3} ==> forall it :: it in PagesSettings(app, loc)[i].items ==> it.App? && it.setting in app
  {
  }

  /** A well-shaped store holds the ten registered titles, once each, at their registration positions. */
  lemma WellShapedTitles(loc: Strings, app: Store)
    requires TitlesDistinct(loc) && WellShaped(loc, app)
    ensures |app| == 10 && UniqueTitles(app)
    ensures app[0].title == loc.use9SentencesTitle
    ensures forall k :: 1 <= k <= 9 ==> app[k].title == SentenceTitle(loc, k)
  {
    RegistrationsUnique(loc);
    RegistrationsShape(loc);
    var r := Registrations(loc);
    assert forall i :: 0 <= i < |app| ==> app[i].title == r[i].title by {
      forall i | 0 <= i < |app| ensures app[i].title == r[i].title {
        assert Titles(app)[i] == NovaTitles(loc)[i];
      }
    }
  }

  lemma HomeScreenPages(app: Store, loc: Strings)
    ensures PagesSettings(app, loc)[2].items == FromApp(app, [loc.use9SentencesTitle] + SentenceTitles(loc, 1, 3))
    ensures PagesSettings(app, loc)[3].items == FromApp(app, SentenceTitles(loc, 4, 9))
  {
  }

  lemma FromAppSlice(s: Store, titles: seq<string>, lo: nat)
    requires UniqueTitles(s) && lo + |titles| <= |s|
    requires forall i :: 0 <= i < |titles| ==> s[lo + i].title == titles[i]
    ensures FromApp(s, titles) == AppItems(s[lo..lo + |titles|])
  {
    SettingsWithSlice(s, titles, lo);
  }

  /**
    For a well-shaped app store, home-screen page 1 lists the Boolean and
    sentences 1-3, page 2 lists sentences 4-9, and together they list every
    app setting exactly once, in registration order.
  */
  lemma HomeScreenPagesPartitionAppStore(app: Store, loc: Strings)
    requires TitlesDistinct(loc) && WellShaped(loc, app)
    ensures PagesSettings(app, loc)[2].items == AppItems(app[..4])
    ensures PagesSettings(app, loc)[3].items == AppItems(app[4..])
    ensures PagesSettings(app, loc)[2].items + PagesSettings(app, loc)[3].items == AppItems(app)
  {
    HomeScreen1IsPrefix(app, loc);
    HomeScreen2IsSuffix(app, loc);
    AppItemsSplit(app, 4);
  }

  lemma HomeScreen1IsPrefix(app: Store, loc: Strings)
    requires TitlesDistinct(loc) && WellShaped(loc, app)
    ensures PagesSettings(app, loc)[2].items == AppItems(app[..4])
  {
    WellShapedTitles(loc, app);
    var t1 := [loc.use9SentencesTitle] + SentenceTitles(loc, 1, 3);
    forall i | 0 <= i < |t1| ensures app[i].title == t1[i] {
      if i > 0 { assert t1[i] == SentenceTitles(loc, 1, 3)[i - 1]; }
    }
    FromAppSlice(app, t1, 0);
    assert app[0..4] == app[..4];
    HomeScreenPages(app, loc);
  }

  lemma HomeScreen2IsSuffix(app: Store, loc: Strings)
    requires TitlesDistinct(loc) && WellShaped(loc, app)
    ensures PagesSettings(app, loc)[3].items == AppItems(app[4..])
  {
    WellShapedTitles(loc, app);
    var t2 := SentenceTitles(loc, 4, 9);
    forall i | 0 <= i < |t2| ensures app[4 + i].title == t2[i] {
    }
    FromAppSlice(app, t2, 4);
    assert app[4..4 + |t2|] == app[4..];
    HomeScreenPages(app, loc);
  }

  lemma AppItemsSplit(s: Store, k: nat)
    requires k <= |s|
    ensures AppItems(s[..k]) + AppItems(s[k..]) == AppItems(s)
  {
  }
}
