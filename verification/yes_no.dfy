/**
  The Yes/No screen (`YesNoViewController`): yes and no speak their titles
  unless the control layer is training, and close goes home.
*/
module YesNo {
  import opened Wrappers
  import opened Controls

  /** The three actions registered when the screen becomes active. */
  function Registered(): (r: seq<Action>)
    ensures |r| == 3 && YesPressed in r && NoPressed in r && CloseYesNo in r
  {
    [YesPressed, NoPressed, CloseYesNo]
  }

  /** `ifNotTrainingSpeakTitleOf`: nothing while training, otherwise the title once, if there is one. */
  function IfNotTrainingSpeak(mode: Mode, title: Option<string>): (r: seq<Effect>)
    ensures mode == TrainGeneric ==> r == []
    ensures mode != TrainGeneric && title.Some? ==> r == [Say(title.value)]
    ensures title.None? ==> r == []
  {
    if mode == TrainGeneric then []
    else if title.Some? then [Say(title.value)]
    else []
  }
}
