/** The transcription adapter `audio_to_text`: the recogniser's three outcomes,
    each flattened into a plain string. */
module Transcription {

  /** What the speech recogniser gives back for one audio file: recognised
      text, an `UnknownValueError` (no speech could be made out) or a
      `RequestError` (the service could not be reached). */
  datatype Recognition = Recognized(text: string) | UnknownValue | RequestError

  /** The transcript recorded when no speech could be made out. */
  const NotUnderstood := "Could not understand audio"

  /** The transcript recorded when the service could not be reached. */
  const NotRequested := "Could not request results"

  /** `audio_to_text`: recognised text verbatim, otherwise the fixed marker
      of the failure. */
  function AudioToText(r: Recognition): (t: string)
    ensures r.Recognized? ==> t == r.text
    ensures r.UnknownValue? ==> t == NotUnderstood
    ensures r.RequestError? ==> t == NotRequested
    ensures !r.Recognized? ==> Classify(t) == r
  {
    match r
    case Recognized(text) => text
    case UnknownValue => NotUnderstood
    case RequestError => NotRequested
  }

  /** How a caller has to read a transcript back: only by comparing it with
      the two markers. */
  function Classify(t: string): Recognition {
    if t == NotUnderstood then UnknownValue
    else if t == NotRequested then RequestError
    else Recognized(t)
  }

  /** Reading a transcript back recovers the outcome exactly when the outcome
      is not a recognised text that happens to spell one of the markers. */
  lemma ClassifyRoundTrip(r: Recognition)
    ensures Classify(AudioToText(r)) == r <==>
      !(r.Recognized? && (r.text == NotUnderstood || r.text == NotRequested))
  {
  }

  /** The two failure markers differ, so the failures stay apart; but a
      speaker who says the marker sentence is indistinguishable from a
      failure. */
  lemma OutcomesConflated()
    ensures AudioToText(UnknownValue) != AudioToText(RequestError)
    ensures AudioToText(Recognized(NotUnderstood)) == AudioToText(UnknownValue)
    ensures AudioToText(Recognized(NotRequested)) == AudioToText(RequestError)
  {
  }
}
