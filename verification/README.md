# MindAffect Speller — a Dafny model

This project models the core of the MindAffect Speller iPad app and its
word-list preparation utility.

The app is driven by a brain-computer interface. A control layer (the
NoiseTagging library) flickers the buttons of whatever view sits on top of
its stack. It fires the action registered on a button when the user attends
to it. The app's Home screen coordinates three pre-built child screens
(Speller, Yes/No, Sleep) and keeps that stack in step with the screen shown.
It also hosts the settings editor, the help page, the nine-sentence option
and the alarm.

The model is a set of pure functions over immutable data:

- `ControlGateway` — the control layer as the app sees it. A stack of
  surfaces, a nestable batch (`updateControls`), and a trace of every push,
  pop, update and commit. A stack op outside a batch commits at once. Inside
  a batch the stack is committed when the outermost batch closes.
- `SettingsStore` — an ordered store of titled Boolean/text settings, with
  registration (`add`), upsert (`addByReplace`), typed reads and typed writes.
- `NovaSettings` — the app's own ten settings, their defaults and the deep
  copy.
- `SettingsPages` — the five settings pages and the list page holding them.
- `Home`, `Speller`, `Sleep`, `YesNo` — the screens: which surface is shown,
  what each pushes and pops, which actions each registers, and the effects
  those actions have.
- `App` — the screens composed into one state machine over brain presses,
  key presses, gestures, setting edits and mode changes. `App.Inv` is an
  invariant it keeps on every input.
- `Info` — the help page: language choice, link policy, and how it switches
  the control layer's trials off and back on.
- `Text`, `WordList` — the word-list utility. It reads `word\frequency`
  lines, drops zero frequencies, merges adjacent repeats, sorts by frequency
  and joins the top 20000 words with commas.

Effects the app hands to the platform (speech, the alarm sound, entering
brain control, opening settings or help) are recorded as `Effect` values.
They are not performed.

## Model

| member | source | states |
|---|---|---|
| `ControlGateway.Push` | MindAffectSpeller/HomeViewController.swift:114-118 | a push appends the entry; outside a batch it is committed at once, inside one only recorded |
| `ControlGateway.Pop` | MindAffectSpeller/HomeViewController.swift:107-111 | a pop removes the top entry (an empty stack stays empty); outside a batch it is committed at once |
| `ControlGateway.EndBatch` | MindAffectSpeller/HomeViewController.swift:102-105 | closing a nested batch commits nothing; closing the outermost commits the stack once |
| `ControlGateway.CommitsAppend` | MindAffectSpeller/HomeViewController.swift:102-120 | the stacks the control layer is shown by two runs of calls are those of the first, then those of the second |
| `SettingsStore.IndexOf` | MindAffectSpeller/SetOfSettingsNova.swift:59 | finds a setting with the title; none exactly when no setting has it |
| `SettingsStore.IndexOfFirst` | MindAffectSpeller/SetOfSettingsNova.swift:59 | the setting found is the first one with that title |
| `SettingsStore.Add` | MindAffectSpeller/SetOfSettingsNova.swift:37-46 | registering a title already present is a duplicate-title error; otherwise the setting is appended |
| `SettingsStore.AddByReplace` | MindAffectSpeller/SetOfSettingsNova.swift:59 | an upsert replaces the setting with that title in place and touches nothing else, or appends when the title is new |
| `SettingsStore.RegisterAllUnique` | MindAffectSpeller/SetOfSettingsNova.swift:36-46 | registering a list succeeds exactly when no title is repeated, and then yields the list in order |
| `SettingsStore.Find` | MindAffectSpeller/HomeViewController.swift:269-276 | a read finds a value exactly when the title is present, and returns the value stored under it |
| `SettingsStore.BoolFor` | MindAffectSpeller/HomeViewController.swift:269 | the nine-sentence flag reads true only if it is stored as Boolean true; a missing title reads false |
| `SettingsStore.TextFor` | MindAffectSpeller/HomeViewController.swift:274-276 | a button title is present exactly when a text setting with that title exists, and is its text |
| `SettingsStore.Set` | MindAffectSpeller/SettingsViewController.swift:56-80 | an edit of an unknown title or with a value of the wrong kind fails; otherwise only that setting's value changes, and titles, kinds and size are kept |
| `SettingsStore.SetThenFind` | MindAffectSpeller/SettingsViewController.swift:56-80 | after an edit the edited title reads back the new value and every other title reads as before |
| `SettingsStore.SettingsWith` | MindAffectSpeller/SettingsViewController.swift:63 | selecting titles yields only settings of the store, one per title when all are present |
| `SettingsStore.SettingsWithSelects` | MindAffectSpeller/SettingsViewController.swift:63 | when every title is present, the k-th selected setting is the store's setting titled with the k-th title |
| `NovaSettings.SentenceTitle` | MindAffectSpeller/SetOfSettingsNova.swift:17-25 | sentence k is titled with the localised word for sentence followed by two characters: a space and the character code of the digit k |
| `NovaSettings.SentenceTitleEndsWithDigit` | MindAffectSpeller/SetOfSettingsNova.swift:17-25 | the last character of a sentence title is the decimal digit of its number, and the one before it a space |
| `NovaSettings.SentenceTitlesDistinct` | MindAffectSpeller/SetOfSettingsNova.swift:17-25 | the nine sentence titles are pairwise distinct |
| `NovaSettings.RegistrationsUnique` | MindAffectSpeller/SetOfSettingsNova.swift:15-26 | the ten titles are distinct exactly when the nine-sentence title differs from every sentence title |
| `NovaSettings.RegisterRegistrations` | MindAffectSpeller/SetOfSettingsNova.swift:33-47 | registering the ten settings into an empty store yields them, in order, exactly when their titles are distinct |
| `NovaSettings.Init` | MindAffectSpeller/SetOfSettingsNova.swift:33-47 | the store holds ten settings: the nine-sentence Boolean (false), then sentences 1-9 with the three default texts and six empty ones; it fails only on a title clash |
| `NovaSettings.CopyIsEqual` | MindAffectSpeller/SetOfSettingsNova.swift:56-62 | the copy of any store of the app's shape equals it, with the same ten settings in the same order |
| `NovaSettings.ReplaceAllAligned` | MindAffectSpeller/SetOfSettingsNova.swift:58-60 | upserting a store's settings into one with the same titles reproduces that store |
| `NovaSettings.ReplaceAllKeepsSize` | MindAffectSpeller/SetOfSettingsNova.swift:58-60 | upserting settings whose titles are all present never grows the store or changes its titles |
| `NovaSettings.SetKeepsShape` | MindAffectSpeller/SettingsViewController.swift:56-80 | an accepted edit keeps the app store well shaped |
| `SettingsPages.PageOrder` | MindAffectSpeller/SettingsViewController.swift:34-92 | five pages in the order sound, keyboard, home screen 1, home screen 2, brain presses; the list page holds exactly them; pages 1, 2 and 5 draw only on the library's stores and pages 3 and 4 only on the app store |
| `SettingsPages.SettingsWithSlice` | MindAffectSpeller/SettingsViewController.swift:63 | selecting titles that sit at consecutive positions of the store yields that slice |
| `SettingsPages.HomeScreenPagesPartitionAppStore` | MindAffectSpeller/SettingsViewController.swift:56-80 | home-screen page 1 lists the Boolean and sentences 1-3 and page 2 sentences 4-9; together they list every app setting once, in order |
| `Home.Initial` | MindAffectSpeller/HomeViewController.swift:244-256 | when Home appears no child is shown and Home's entry is the only one on the stack, committed once |
| `Home.Show` | MindAffectSpeller/HomeViewController.swift:95-122 | showing the child already shown changes nothing; otherwise one batch pops the old child's entry and pushes the new child's entry (only for a control delegate), then commits once |
| `Home.GoHome` | MindAffectSpeller/HomeViewController.swift:127-129 | going home leaves no child shown |
| `Home.ShowIdempotent` | MindAffectSpeller/HomeViewController.swift:97-100 | assigning the same child twice acts once |
| `Home.SwapIsOnePopThenOnePush` | MindAffectSpeller/HomeViewController.swift:102-120 | replacing one shown child by another is one pop then one push, committed together |
| `Home.OpenFromHomeIsOnePush` | MindAffectSpeller/HomeViewController.swift:113-118 | opening a child from Home is one push and one commit |
| `Home.ShowCommitsOnce` | MindAffectSpeller/HomeViewController.swift:102-120 | showing a different child shows the control layer exactly one new stack outside a batch and none inside one |
| `Home.GoHomeIsOnePop` | MindAffectSpeller/HomeViewController.swift:106-111 | going home from a child is one pop and one commit |
| `Home.ShowKeepsBalance` | MindAffectSpeller/HomeViewController.swift:105-120 | when every child is a delegate, the coordinator owns exactly the shown child's entry above its base after every show |
| `Home.NonDelegateChildBreaksBalance` | MindAffectSpeller/HomeViewController.swift:107-118 | the pop is unconditional but the push needs the delegate capability: with a non-delegate child, showing it and going home pops Home's own entry |
| `Home.Pinch` | MindAffectSpeller/HomeViewController.swift:400-411 | a pinch opens Yes/No only while it begins or changes, below half scale, with no child shown; otherwise nothing changes |
| `Home.Visibility` | MindAffectSpeller/HomeViewController.swift:268-271 | exactly one sentence view is visible; the nine-sentence view exactly when the option is true |
| `Home.SpeakRangeExactly` | MindAffectSpeller/HomeViewController.swift:345-370 | a speak action is registered on a sentence button in the range exactly when that sentence has a title, and it says that title |
| `Home.SentenceSpeakRule` | MindAffectSpeller/HomeViewController.swift:358-370 | the sentence speak actions are on buttons 1-3 with the option off and on alternative buttons 1-9 with it on, never on the yes or no buttons |
| `Home.HomeSpeakRule` | MindAffectSpeller/HomeViewController.swift:345-374 | speaking is registered on sentence buttons 1-3 when the option is off, on alternative buttons 1-9 when it is on, and always on yes and no, each with its title and only when titled |
| `Home.HomeNavigationAlwaysRegistered` | MindAffectSpeller/HomeViewController.swift:319-343 | the six navigation actions are registered first whatever the settings, and every other action Home registers is a speak action |
| `Home.SpeakRangeOnlySpeaks` | MindAffectSpeller/HomeViewController.swift:345-370 | a range of sentence buttons registers only speak actions |
| `Home.EveryAppEditIsObserved` | MindAffectSpeller/HomeViewController.swift:228-241 | every accepted edit of the app store is of a title Home subscribes to, so its buttons are refreshed |
| `Speller.DidAppear` | MindAffectSpeller/SpellerViewController.swift:65-70 | when the Speller appears the keyboard's entry goes on top of its own |
| `Speller.Registered` | MindAffectSpeller/SpellerViewController.swift:82-84 | the Speller's own entry registers no action |
| `Speller.CustomKeyPress` | MindAffectSpeller/SpellerViewController.swift:92-107 | a key press is handled exactly when it is the Home key; any other key changes nothing; the Home key leaves no child shown |
| `Speller.HomeKeyPopsTwiceInOneBatch` | MindAffectSpeller/SpellerViewController.swift:94-99 | the Home key pops the keyboard and the Speller in one outer batch, commits once, and leaves only Home's entry |
| `Speller.HomeKeyCommitsOnce` | MindAffectSpeller/SpellerViewController.swift:94-99 | the Home key shows the control layer exactly one new stack, Home alone |
| `Sleep.Initial` | MindAffectSpeller/SleepViewController.swift:66-92 | the Sleep screen starts with alarm mode off, the Alarm button hidden and the matching explanation |
| `Sleep.SetAlarmMode` | MindAffectSpeller/SleepViewController.swift:47-64 | setting the current mode again changes nothing; a real change shows exactly one button, updates the explanation and re-registers the screen once |
| `Sleep.ExplanationMatchesMode` | MindAffectSpeller/SleepViewController.swift:94-96 | the explanation is the alarm-on text exactly when alarm mode is on |
| `Sleep.DoubleTap` | MindAffectSpeller/SleepViewController.swift:108-116 | a double tap toggles alarm mode; switching it off goes home and switching it on does not |
| `Sleep.Registered` | MindAffectSpeller/SleepViewController.swift:178-192 | the screen registers go-home when alarm mode is off and the alarm when it is on, never both |
| `YesNo.Registered` | MindAffectSpeller/YesNoViewController.swift:64-76 | yes, no and close are registered |
| `YesNo.IfNotTrainingSpeak` | MindAffectSpeller/YesNoViewController.swift:81-89 | nothing is said while the control layer trains; otherwise the title is said once, if there is one |
| `App.InitKeepsInv` | MindAffectSpeller/HomeViewController.swift:244-256 | the app starts in a state satisfying the invariant |
| `App.RestartKeepsInv` | MindAffectSpeller/HomeViewController.swift:312-378 | after a push, pop or update the top entry registers its actions afresh; otherwise the earlier ones stay, and either way they fit the screen on top |
| `App.StepKeepsInv` | MindAffectSpeller/HomeViewController.swift:95-129 | every input keeps the invariant: the stack is Home plus the shown child (and the Speller's keyboard), no batch is left open, alarm mode is on only while Sleep is shown, the store keeps its shape, every commit was a valid stack, and the actions held are those the top screen registers (on Home, navigation or speech) |
| `App.RunKeepsInv` | MindAffectSpeller/HomeViewController.swift:95-129 | the invariant holds after any sequence of inputs |
| `App.SleepLeftOnlyWithAlarmOff` | MindAffectSpeller/SleepViewController.swift:108-116 | the Sleep screen is left only for Home, only by its go-home action or a double tap, and with alarm mode off |
| `App.CloseYesNoOnlyGoesHome` | MindAffectSpeller/YesNoViewController.swift:73-75 | touching close on Yes/No leaves only Home's entry and changes nothing else: no effect, no settings edit, no change to Sleep or the mode; Home registers its actions afresh |
| `App.BrainPressNeedsFlicker` | MindAffectSpeller/HomeViewController.swift:170 | a brain press acts only on a registered action whose button flickers; brain presses of the help button and of the Yes/No close button change nothing |
| `App.HelpOnlyByTouch` | MindAffectSpeller/HomeViewController.swift:169-170 | the help page is opened only by touching Home's help button while no child is shown |
| `App.HelpRegisteredOnlyAtHome` | MindAffectSpeller/HomeViewController.swift:337-339 | the help action is held only while Home is on top |
| `App.ShownChangesOnlyByNavigation` | MindAffectSpeller/HomeViewController.swift:319-343 | the shown child changes only through the sleep, speller and go-home actions (brain-pressed or touched), a touch of close, the Home key, a double tap, or a pinch that opens Yes/No |
| `Info.PageFor` | MindAffectSpeller/InfoViewController.swift:31-37 | the Dutch page is shown exactly for language code "nl"; English otherwise, also with no code |
| `Info.Decide` | MindAffectSpeller/InfoViewController.swift:90-103 | a request without a URL is cancelled; the page's own URL is allowed; any other URL is cancelled and opened externally once |
| `Info.WillAppear` | MindAffectSpeller/InfoViewController.swift:72-78 | on appearing, trials stop and their previous state is remembered |
| `Info.DidDisappear` | MindAffectSpeller/InfoViewController.swift:80-85 | on disappearing, trials are put back to the remembered state |
| `Info.VisitRestoresTrials` | MindAffectSpeller/InfoViewController.swift:72-85 | whatever happens to the flag while the page is shown, dismissing it restores the value from before |
| `Text.Split` | PrepareDataWordCompletion/PrepareDataWordCompletion/AppDelegate.swift:47 | splitting gives at least one field, no field holds the separator, and every character comes from the input |
| `Text.JoinSplit` | PrepareDataWordCompletion/PrepareDataWordCompletion/AppDelegate.swift:47 | joining the fields of a split with the separator gives back the text |
| `Text.SplitJoin` | PrepareDataWordCompletion/PrepareDataWordCompletion/AppDelegate.swift:82-85 | splitting a join of separator-free words gives back the words |
| `Text.ParseShow` | PrepareDataWordCompletion/PrepareDataWordCompletion/AppDelegate.swift:53 | every integer written in decimal parses back to itself |
| `WordList.LongLines` | PrepareDataWordCompletion/PrepareDataWordCompletion/AppDelegate.swift:47 | a line is kept exactly when it is longer than one character |
| `WordList.LongLinesAppend` | PrepareDataWordCompletion/PrepareDataWordCompletion/AppDelegate.swift:47 | filtering the lines of two pieces is filtering each and concatenating, so order and repeats are kept |
| `WordList.LongLinesOne` | PrepareDataWordCompletion/PrepareDataWordCompletion/AppDelegate.swift:47 | a single line is kept exactly when it is longer than one character |
| `WordList.ParseLine` | PrepareDataWordCompletion/PrepareDataWordCompletion/AppDelegate.swift:51-54 | a line with fewer than two fields, or whose second field is not a number, is fatal; otherwise the word is the first field and the frequency the second |
| `WordList.FormatThenParse` | PrepareDataWordCompletion/PrepareDataWordCompletion/AppDelegate.swift:51-54 | a line written as word, backslash, frequency parses back to that entry |
| `WordList.ParseLines` | PrepareDataWordCompletion/PrepareDataWordCompletion/AppDelegate.swift:51-54 | parsing succeeds exactly when every line parses, giving one entry per line in order; otherwise it fails with a failing line's error |
| `WordList.PositiveMembers` | PrepareDataWordCompletion/PrepareDataWordCompletion/AppDelegate.swift:57 | an entry is kept exactly when it is in the input with a positive frequency |
| `WordList.PositiveAppend` | PrepareDataWordCompletion/PrepareDataWordCompletion/AppDelegate.swift:57 | filtering two pieces is filtering each and concatenating, so order and repeats are kept |
| `WordList.PositiveOne` | PrepareDataWordCompletion/PrepareDataWordCompletion/AppDelegate.swift:57 | a single entry is kept exactly when its frequency is positive |
| `WordList.MergeRuns` | PrepareDataWordCompletion/PrepareDataWordCompletion/AppDelegate.swift:59-69 | merging never grows the list, keeps the first word and the total frequency, and leaves no two adjacent entries with the same word |
| `WordList.MergeRunsWords` | PrepareDataWordCompletion/PrepareDataWordCompletion/AppDelegate.swift:59-69 | the merged words are the input's words with adjacent repeats removed |
| `WordList.MergeRunsOfMerged` | PrepareDataWordCompletion/PrepareDataWordCompletion/AppDelegate.swift:59-69 | a list without adjacent repeats is left unchanged |
| `WordList.MergeStep` | PrepareDataWordCompletion/PrepareDataWordCompletion/AppDelegate.swift:63-65 | folding a repeat into the entry before it does not change the merged result |
| `WordList.MergeAdjacent` | PrepareDataWordCompletion/PrepareDataWordCompletion/AppDelegate.swift:60-69 | the merge loop, run to the last entry, computes the merged list: no adjacent repeats and the same total |
| `WordList.MergeAsWritten` | PrepareDataWordCompletion/PrepareDataWordCompletion/AppDelegate.swift:60-69 | the merge as written never grows the list, is empty only for an empty input, and keeps the total frequency |
| `WordList.MergeAdjacentAsWritten` | PrepareDataWordCompletion/PrepareDataWordCompletion/AppDelegate.swift:60-69 | the merge loop as written merges every entry but the last, leaves the last entry as it was, and keeps the total frequency |
| `WordList.MergeAsWrittenAgrees` | PrepareDataWordCompletion/PrepareDataWordCompletion/AppDelegate.swift:60-69 | the loop as written gives the intended merge exactly when the last two entries carry different words |
| `WordList.MergeAsWrittenKeepsWords` | PrepareDataWordCompletion/PrepareDataWordCompletion/AppDelegate.swift:60-69 | the loop as written introduces no word the input did not hold |
| `WordList.TrailingDuplicateSurvives` | PrepareDataWordCompletion/PrepareDataWordCompletion/AppDelegate.swift:62 | two entries for one word at the end of the list stay unmerged as written, while the intended merge gives one entry with the summed frequency |
| `WordList.Insert` | PrepareDataWordCompletion/PrepareDataWordCompletion/AppDelegate.swift:72 | inserting into a list sorted by falling frequency keeps it sorted and adds exactly the one entry |
| `WordList.SortByFrequency` | PrepareDataWordCompletion/PrepareDataWordCompletion/AppDelegate.swift:72 | the result is sorted by falling frequency and is a permutation of the input |
| `WordList.TopWords` | PrepareDataWordCompletion/PrepareDataWordCompletion/AppDelegate.swift:79-83 | at most 20000 words are kept, fewer only when the list is shorter |
| `WordList.Output` | PrepareDataWordCompletion/PrepareDataWordCompletion/AppDelegate.swift:82 | an empty sorted list is fatal because the first entry is read unconditionally; otherwise output succeeds |
| `WordList.JoinTop` | PrepareDataWordCompletion/PrepareDataWordCompletion/AppDelegate.swift:79-85 | the joining loop produces the top words joined by commas |
| `WordList.OutputSplitsIntoTopWords` | PrepareDataWordCompletion/PrepareDataWordCompletion/AppDelegate.swift:82-85 | with no comma in any word, the output splits back into exactly the kept words |
| `WordList.BuildFailsOnlyWithoutWords` | PrepareDataWordCompletion/PrepareDataWordCompletion/AppDelegate.swift:57-85 | once every line parses, the utility, as written or corrected, fails exactly when no entry has a positive frequency, and then with the empty-list error |
| `WordList.EntryFromLine` | PrepareDataWordCompletion/PrepareDataWordCompletion/AppDelegate.swift:47-69 | every entry that survives filtering and either merge carries the first field of a kept line and only characters of the corpus |
| `WordList.BuildOutputWords` | PrepareDataWordCompletion/PrepareDataWordCompletion/AppDelegate.swift:47-85 | for a corpus without commas the output of either builder holds at most 20000 words, each the first field of some kept line |
| `WordList.BuildAgreesWithoutTrailingRepeat` | PrepareDataWordCompletion/PrepareDataWordCompletion/AppDelegate.swift:47-85 | when the last two positive entries carry different words, the builder as written and the corrected one give the same result |
| `WordList.BuildKeepsTrailingRepeat` | PrepareDataWordCompletion/PrepareDataWordCompletion/AppDelegate.swift:60-85 | the corpus `a\1`, `a\2` makes the builder as written output `a,a` |
| `WordList.BuildIntendedMergesTrailingRepeat` | PrepareDataWordCompletion/PrepareDataWordCompletion/AppDelegate.swift:60-85 | the same corpus through the corrected merge outputs `a` |

## Left out

- The control library's own code is not part of this model. This covers
  `push`, `pop`, `update`, `updateControls`, `SetOfSettings`, subscription
  and notification, and the keyboard. `ControlGateway` and `SettingsStore`
  state the behaviour the app relies on.
  - Popping an empty stack is modelled as leaving it empty.
  - Only the entry on top of the stack can fire actions.
- Layout, scaling, colours, images, fonts, the status bar and home indicator,
  and the Sleep screen's pan-to-resize gesture are presentation only.
- Speech, the alarm sound, web view loading and opening URLs are not
  performed. They are recorded as `Effect` values or `Decision` fields.
- Opening the settings navigator page and presenting the help page are
  recorded as effects. Their navigation is not part of `App.Step`.
- `pagesSettings()` of the three child screens is a constant empty list that
  nothing in the core reads. It is not modelled.
- The children's back-reference to Home is assumed set once Home has
  appeared.
- `App.Open` assumes the Speller's `viewDidAppear` runs after the batch that
  shows it has closed (MindAffectSpeller/HomeViewController.swift:105-120,
  MindAffectSpeller/SpellerViewController.swift:65-69). The keyboard's entry
  is then pushed above the Speller's and committed on its own. When UIKit
  delivers that call is not stated in the app's code. If it came during
  `addSubview` inside the batch, the keyboard's entry would sit below the
  Speller's. `App.Expected`, `App.ValidStack` and `App.StepKeepsInv` rely on
  the order assumed here.
- Home subscribes, on the app store `settingsSpellerApp`, to the ten app
  titles and to two colour titles defined by the library
  (MindAffectSpeller/HomeViewController.swift:228-241). The colour titles
  appear only as `LibraryColourTitle` entries. The app store never registers
  them, so no edit of them reaches Home in the model.
- Localised strings are a parameter record, `Localization.Strings`.
  `Strings.swift`, `BartyCrouch.swift` and `ViewController.swift` are not
  part of this model.
- Copies are independent by value semantics. The model has no references
  to share.
- `App.Step` ignores an edit the store rejects. The library's reaction to
  such an edit is unknown.
- `App.Step` accepts an edit of the app store on any screen. The settings
  pages that make the edit are library UI, so which screen is on top while
  they are open is not modelled.
- `App.Step` treats a touch of a registered action as firing it. The
  library's touch handling is not part of this model.
- `App.Restart` assumes the control layer restarts the top entry after every
  push, pop or update, and only then. The actions it holds are stored in the
  state and are not re-read after a settings edit.
- The word-list utility's file lookup, file loading and UTF-8 decoding are
  left out. The model starts from the decoded text. The progress prints,
  the timing loop after the output and the unused `random` helper are left
  out too.
- `WordList.LongLines` counts a line's characters as code points, not as
  Swift's grapheme clusters.
- `WordList.MergeRuns` and `WordList.MergeAsWritten` compare words code
  point by code point. Swift's `String ==` uses Unicode canonical
  equivalence, so two spellings of one word (a precomposed `é` and `e`
  followed by a combining accent) merge in the utility but stay apart in the
  model. The model has no Unicode normalisation.
- `WordList.ParseLine` does not model `Float` parsing or rounding, because
  the model has no floating point. A frequency is an integer written with an
  optional sign and decimal digits. A line such as `a\1.5` is fatal in the
  model although `Float` would accept it.
- `WordList.SortByFrequency` fixes one order among entries of equal
  frequency. `WordList.Insert` puts an entry before those of equal frequency
  already placed, and the sort inserts from the back of the list, so equal
  entries keep their input order. The Swift sort is not guaranteed stable by its
  documentation, so the model does not promise that order. The lemmas about
  the output do not depend on it.

## Findings

| source | as written | input that shows it | evidently intended | confidence | as-written member | corrected member |
|---|---|---|---|---|---|---|
| PrepareDataWordCompletion/PrepareDataWordCompletion/AppDelegate.swift:62 | the merge loop runs while `i < count - 1`, so the last entry is never compared with the one before it | two entries `a` with frequencies 1 and 2 at the end of the positive list: they stay separate, and `a` appears twice in the output | run while `i < count`, so that every run of adjacent entries for one word is merged into one entry with the summed frequency | not executed | `WordList.TrailingDuplicateSurvives`, `WordList.BuildKeepsTrailingRepeat` | `WordList.MergeAdjacent`, `WordList.BuildIntended`, `WordList.BuildIntendedMergesTrailingRepeat` |

`WordList.MergeAdjacentAsWritten` models the loop as written and is proved
equal to `WordList.MergeAsWritten`. `WordList.MergeAdjacent` is the corrected
loop, proved equal to `WordList.MergeRuns`. `WordList.Build` is the utility
as written and uses `WordList.MergeAsWritten`; `WordList.BuildIntended` uses
the corrected merge. `WordList.BuildFailsOnlyWithoutWords`,
`WordList.EntryFromLine` and `WordList.BuildOutputWords` hold for both, and
`WordList.BuildAgreesWithoutTrailingRepeat` shows the two agree unless the
last two positive entries share a word.
