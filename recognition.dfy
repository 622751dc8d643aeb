/** The recognition gateway: what `recognize_audio` makes of the engine's
    answer once the request has been sent. */
module Recognition {
  import opened Wrappers
  import opened RelayTypes
  import opened TextHelpers

  /** The position of the first result that has any alternatives, or
      `|results|` when none has. */
  function FirstUsable(results: seq<SpeechResult>): (k: nat)
    ensures k <= |results|
    ensures forall j :: 0 <= j < k ==> results[j].alternatives == []
    ensures k < |results| ==> results[k].alternatives != []
  {
    if results == [] || results[0].alternatives != [] then 0 else 1 + FirstUsable(results[1..])
  }

  /** The stripped top transcript of the first result that has any
      alternatives; `None` when no result has one. */
  function FirstTranscript(results: seq<SpeechResult>): (r: Option<string>)
    ensures r.None? <==> forall i :: 0 <= i < |results| ==> results[i].alternatives == []
    ensures r.Some? ==>
      var i := FirstUsable(results);
      i < |results| && r.value == Strip(results[i].alternatives[0].transcript)
  {
    var i := FirstUsable(results);
    if i == |results| then None else Some(Strip(results[i].alternatives[0].transcript))
  }

  /** `recognize_audio(audio, lang)`: `None` when the engine call raised,
      otherwise the first usable transcript. */
  function RecognizeAudio(caps: Capabilities, audio: Bytes, lang: string): (r: Option<string>)
    ensures caps.recognize(audio, lang).None? ==> r.None?
    ensures caps.recognize(audio, lang).Some? ==> r == FirstTranscript(caps.recognize(audio, lang).value)
  {
    match caps.recognize(audio, lang)
    case None => None
    case Some(results) => FirstTranscript(results)
  }

  /** The transcript that comes back never carries surrounding whitespace. */
  lemma RecognizedIsStripped(caps: Capabilities, audio: Bytes, lang: string)
    requires RecognizeAudio(caps, audio, lang).Some?
    ensures Strip(RecognizeAudio(caps, audio, lang).value) == RecognizeAudio(caps, audio, lang).value
  {
    var results := caps.recognize(audio, lang).value;
    var i := FirstUsable(results);
    StripIdempotent(results[i].alternatives[0].transcript);
  }
}
