/**
  The vocabulary shared by the screens: the control layer's mode, the
  actions a screen registers with the control layer, which of them can be
  brain-pressed, and the side effects those actions have outside the model
  (speech, sound, modal screens).
*/
module Controls {

  /** The control layer's current mode; only generic training matters here. */
  datatype Mode = TrainGeneric | OtherMode

  /** Side effects of actions: foreign calls recorded instead of performed. */
  datatype Effect = Say(text: string) | PlayAlarm | EnterBrainControl | OpenSettings | OpenHelp

  /** The Home screen buttons that speak their title; `k` counts from 1. */
  datatype SpeakButton = SentenceButton(k: int) | AltSentenceButton(k: int) | HomeYesButton | HomeNoButton

  datatype Action =
    // Home screen
    | OpenSleep | EnterBrain | SoundAlarm | OpenSettingsPage | OpenHelpPage | OpenSpeller
    | SpeakTitle(button: SpeakButton, text: string)
    // Yes/No screen
    | YesPressed | NoPressed | CloseYesNo
    // Sleep screen
    | SleepGoHome | SleepAlarm

  /**
    Whether the action's button takes part in flickering and so can be
    brain-pressed. Home's help button and the Yes/No close button are kept
    out of flickering: they can only be touched.
  */
  predicate Flickers(act: Action)
  {
    act != OpenHelpPage && act != CloseYesNo
  }
}
