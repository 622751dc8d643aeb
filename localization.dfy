/** The localization pipeline: `translate_and_tts(text, target_lang)`. */
module Localization {
  import opened Wrappers
  import opened RelayTypes
  import opened TextHelpers

  /** The `(translated, audio_content)` pair the pipeline returns. */
  datatype Localized = Localized(translated: Option<string>, audio: Option<Bytes>)

  /** Translate `text` into the target's base language, then synthesize the
      translation with the full tag's standard voice, both on behalf of
      `recipient`. Both calls sit in one `try`, so a failure of either
      yields `(None, None)`. */
  function Localize(caps: Capabilities, recipient: string, text: string, target: string): (r: Localized)
    ensures r.translated.None? <==> r.audio.None?
    ensures caps.translate(recipient, text, BaseLanguage(target)).None? ==> r == Localized(None, None)
    ensures r.translated.Some? ==>
      && caps.translate(recipient, text, BaseLanguage(target)) == r.translated
      && caps.synthesize(recipient, r.translated.value, target, VoiceName(target)) == r.audio
    ensures caps.translate(recipient, text, BaseLanguage(target)).Some?
      && caps.synthesize(recipient, caps.translate(recipient, text, BaseLanguage(target)).value, target, VoiceName(target)).None?
      ==> r == Localized(None, None)
    ensures caps.translate(recipient, text, BaseLanguage(target)).Some?
      && caps.synthesize(recipient, caps.translate(recipient, text, BaseLanguage(target)).value, target, VoiceName(target)).Some?
      ==> r == Localized(caps.translate(recipient, text, BaseLanguage(target)),
                         caps.synthesize(recipient, caps.translate(recipient, text, BaseLanguage(target)).value, target, VoiceName(target)))
  {
    match caps.translate(recipient, text, BaseLanguage(target))
    case None => Localized(None, None)
    case Some(translated) =>
      match caps.synthesize(recipient, translated, target, VoiceName(target))
      case None => Localized(None, None)
      case Some(audio) => Localized(Some(translated), Some(audio))
  }

  /** When both calls succeed, the result is exactly their two outputs. */
  lemma LocalizeSucceeds(caps: Capabilities, recipient: string, text: string, target: string, translated: string, audio: Bytes)
    requires caps.translate(recipient, text, BaseLanguage(target)) == Some(translated)
    requires caps.synthesize(recipient, translated, target, VoiceName(target)) == Some(audio)
    ensures Localize(caps, recipient, text, target) == Localized(Some(translated), Some(audio))
  {
  }
}
