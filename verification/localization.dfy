/**
  The localised strings the core reads. Their contents come from the app's
  string tables, which are not part of this model, so they are a parameter.
*/
module Localization {

  datatype Strings = Strings(
    sentence: string,              // prefix of the sentence setting titles
    use9SentencesTitle: string,    // title of the Boolean home-screen setting
    defaultSentence1: string,
    defaultSentence2: string,
    defaultSentence3: string,
    homeYes: string,               // yes/no button titles on the Home screen
    homeNo: string,
    yesNoYes: string,              // yes/no button titles on the Yes/No screen
    yesNoNo: string,
    explanationAlarmOn: string,    // Sleep screen explanation texts
    explanationAlarmOff: string)

  /** The two Sleep explanations can be told apart. */
  predicate DistinctExplanations(loc: Strings)
  {
    loc.explanationAlarmOn != loc.explanationAlarmOff
  }
}
