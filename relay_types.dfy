/** The values the relay passes around: participants, outbound packets, the
    delivery log, and the external capabilities it calls. */
module RelayTypes {
  import opened Wrappers

  type Byte = bv8
  /** Raw audio (inbound PCM frames, outbound MP3): opaque byte strings. */
  type Bytes = seq<Byte>

  /** An opaque handle for a participant's WebSocket. */
  type ChannelId = nat

  /** Bytes that make up one utterance: 16000 samples of 16-bit mono PCM,
      about one second at 16 kHz. */
  const Threshold: nat := 16000 * 2

  /** One registry entry: the `{"socket": ws, "lang": lang}` record. */
  datatype Participant = Participant(channel: ChannelId, lang: string)

  /** The two kinds of outbound payload. */
  datatype Packet =
    | Subtitle(from: string, sourceLang: string, textOriginal: string, textTranslated: string)
    | Audio(audio: Bytes)

  /** One attempted send: who it was for, the socket it went to, what was
      sent, and whether the send succeeded (a failure is swallowed). */
  datatype Delivery = Delivery(recipient: string, channel: ChannelId, packet: Packet, sent: bool)

  /** One speech-recognition result and its ranked alternatives. */
  datatype Alternative = Alternative(transcript: string)
  datatype SpeechResult = SpeechResult(alternatives: seq<Alternative>)

  /** The parsed configuration message: both fields may be missing. */
  datatype Config = Config(userId: Option<string>, lang: Option<string>)

  /** The external collaborators, each reduced to its observable outcome.
      `None` stands for any exception the call raises.
      - recognize(audio, languageCode): the engine's list of results;
      - translate(recipient, text, targetLanguage): the translated text;
      - synthesize(recipient, text, languageCode, voiceName): the audio content;
      - send(channel, packet): whether the send on that socket succeeded.
      translate and synthesize also receive the recipient for whom the call
      is made, so that one call may fail while another with the same
      arguments, made for another recipient, succeeds. */
  datatype Capabilities = Capabilities(
    recognize: (Bytes, string) -> Option<seq<SpeechResult>>,
    translate: (string, string, string) -> Option<string>,
    synthesize: (string, string, string, string) -> Option<Bytes>,
    send: (ChannelId, Packet) -> bool)

  /** Python truthiness of an optional string: present and non-empty. */
  predicate IsTruthy(s: Option<string>) {
    s.Some? && s.value != []
  }

  /** Python truthiness of optional bytes: present and non-empty. */
  predicate IsTruthyBytes(b: Option<Bytes>) {
    b.Some? && b.value != []
  }
}
