# Multi-user translation relay: a Dafny model

This project models the relay core of `multiuser.py`, a FastAPI WebSocket
service. Each client connects to `/conversation` and sends one JSON
configuration message (`user_id`, `lang`), then raw 16 kHz 16-bit PCM frames.
For each connection the service does four things:

- It buffers the frames until at least 32000 bytes (about one second) have
  built up.
- It sends that buffer to speech recognition and empties the buffer.
- When recognition returns a non-empty transcript, it broadcasts it to every
  other registered participant. Each recipient gets the text translated into
  its own language and then synthesized as speech.
- It removes the participant from the process-wide `clients` table when the
  connection ends.

The model is split into these modules:

- `Chunker`: the per-connection byte buffer, as a class `UtteranceBuffer`
  with an `Append` method. `Chunk` is the reference definition of what a run
  of frames yields, and the lemmas about it cover the threshold, the reset
  and byte conservation.
- `SessionRegistry`: the `clients` dict, as a class `Registry`. It holds a
  `map` from id to `Participant` (channel, language) and a `seq` of ids in
  Python's dict iteration order. A join that replaces an entry keeps its
  place in that order, a new id goes last, and `pop` removes the id. The
  module also holds the default-id and default-language rules.
- `Broadcaster`: `broadcast` as a loop method `Broadcast`, proved equal to
  the fan-out function `BroadcastSpec`. The lemmas cover sender exclusion,
  exactly one per-recipient block per other participant, the packet order,
  per-recipient isolation and independence from send failures.
- `Localization`, `Recognition`, `TextHelpers`: `translate_and_tts` and
  `recognize_audio` with their collapse to `None`, Python's `str.strip()`,
  `split("-")[0]`, the voice name, and the decimal digits in `user_N`.
- `ConnectionHandler`: `conversation_socket` as a class `Connection` with
  the methods `Open` (join), `OnFrame`, `Close` (leave) and `Run` (the whole
  receive loop). `Run` is proved against the reference function
  `SessionRun`. The lemma `SessionFollowsChunker` connects `SessionRun` to
  the chunker's utterances and the broadcasts.

The external services are not modelled. A value of type `Capabilities`
stands in for them. It has one function-typed field per service: recognize,
translate, synthesize and send. `None` (or a `false` send) stands for any
exception the real call raises. Translate and synthesize also take the
recipient the call is made for, so the model can express a failure for one
recipient and a success for another. Inbound frames are a `seq<Bytes>`.
Sockets are opaque `ChannelId` numbers.

In `translate_and_tts` (multiuser.py:44-57), translation and synthesis
share one `try` block. So a synthesis failure after a successful
translation returns `(None, None)`, and that recipient gets no subtitle
either (`Localization.Localize`).

Some consequences of the code, proved in the model:

- A default id `user_{len(clients)+1}` is fresh while every participant
  joined under a default id and nobody has left (`DefaultUserIdFresh`).
  Otherwise it can match an existing participant and replace it
  (`DefaultUserIdReused`). This happens after a leave, or with no leave at
  all when someone joined under a configured id such as `user_2`.
- If the speaker is no longer registered, for example because a later
  connection with the same id has left, `clients[sender_id]` raises. The
  connection then ends without delivering anything
  (`UnregisteredSpeakerDeliversNothing`).

## Model

| member | source | states |
|---|---|---|
| `TextHelpers.Strip` | multiuser.py:37 | the transcript's `.strip()`: the result is a contiguous middle part of the input; everything cut off on either side is whitespace (Python's `isspace` set); the result neither starts nor ends with whitespace |
| `TextHelpers.StripIdempotent` | multiuser.py:37 | stripping an already stripped transcript changes nothing |
| `TextHelpers.BaseLanguage` | multiuser.py:45 | `target_lang.split("-")[0]`: a prefix of the tag with no `-`, ending at the tag's end or at its first `-` |
| `TextHelpers.VoiceName` | multiuser.py:49 | the voice is the full tag followed by `-Standard-A` |
| `TextHelpers.SpanishBase` | multiuser.py:45-49 | `es-MX` translates into `es` and speaks with the voice `es-MX-Standard-A` |
| `TextHelpers.FrenchBase` | multiuser.py:45 | `fr-FR` translates into `fr` |
| `TextHelpers.Decimal` | multiuser.py:99 | the number in `user_{n}` is a non-empty string of decimal digits that denotes `n`; it starts with `0` only for `n == 0` (no leading zero), and has two or more digits exactly when `n >= 10` |
| `TextHelpers.DecimalInjective` | multiuser.py:99 | different numbers are written with different digits |
| `Recognition.FirstUsable` | multiuser.py:35-36 | the position of the first result with non-empty alternatives; every earlier result has none |
| `Recognition.FirstTranscript` | multiuser.py:35-38 | `None` exactly when no result has alternatives; otherwise the stripped top alternative of the first result that has one |
| `Recognition.RecognizeAudio` | multiuser.py:25-41 | a failing engine call gives `None`; otherwise the answer is the first usable transcript |
| `Recognition.RecognizedIsStripped` | multiuser.py:35-38 | a recognized text never carries surrounding whitespace |
| `Localization.Localize` | multiuser.py:43-57 | translation goes to the base language; on success, synthesis uses the translated text, the full tag and its `-Standard-A` voice; a failure of either call gives `(None, None)`; when both succeed the result is their two outputs; the two parts are both present or both absent |
| `Localization.LocalizeSucceeds` | multiuser.py:45-54 | when both calls succeed, `translate_and_tts` returns their two outputs |
| `SessionRegistry.Without` | multiuser.py:118 | removing an id from the iteration order keeps exactly the other ids, at most as many as before, still each once |
| `SessionRegistry.WithoutAbsent` | multiuser.py:118 | removing an absent id changes nothing |
| `SessionRegistry.WithoutAppend` | multiuser.py:118 | removal works piece by piece, so the remaining ids keep their relative iteration order |
| `SessionRegistry.WithoutIdempotent` | multiuser.py:118-121 | removing the same id twice is removing it once |
| `SessionRegistry.DefaultUserId` | multiuser.py:99 | the generated id is `user_` followed by the decimal digits of `len(clients)+1` |
| `SessionRegistry.DefaultUserIdInjective` | multiuser.py:99 | default ids generated at different registry sizes differ |
| `SessionRegistry.DefaultUserIdFresh` | multiuser.py:99-102 | while the registry holds exactly `user_1`..`user_n`, the next default id is not registered |
| `SessionRegistry.DefaultUserIdReused` | multiuser.py:99-102 | with only `user_2` registered (after a leave, or joined under that configured id), the next default id is `user_2` again |
| `SessionRegistry.ResolveUserId` | multiuser.py:99 | `data.get("user_id", default)`: the configured id if given, else the default id for the current size |
| `SessionRegistry.ResolveLang` | multiuser.py:100 | `data.get("lang", "en-US")`: the configured language if given, else `en-US` |
| `SessionRegistry.Registry.constructor` | multiuser.py:20 | the registry starts empty |
| `SessionRegistry.Registry.Count` | multiuser.py:99 | `len(clients)` equals the number of ids in iteration order |
| `SessionRegistry.Registry.Join` | multiuser.py:102 | upsert: the id now maps to the new entry; every other entry is unchanged; an existing id keeps its place in the order and a new one goes last |
| `SessionRegistry.Registry.Leave` | multiuser.py:118 | `pop(user_id, None)`: the id is gone; every other entry is unchanged; an absent id leaves the registry exactly as it was |
| `SessionRegistry.JoinLeaveScenario` | multiuser.py:102-121 | join A, join B, leave A leaves only B; leaving A again changes nothing |
| `Broadcaster.ForRecipient` | multiuser.py:66-88 | one recipient's attempts: at most two (a subtitle and an audio packet), all addressed to that recipient on its own socket |
| `Broadcaster.ForRecipientShape` | multiuser.py:66-88 | a Subtitle (sender id, sender language, original and translated text) exactly when the translation is non-empty, first; an Audio packet exactly when the audio is non-empty, last; each attempt records its own send outcome |
| `Broadcaster.DeliverTo` | multiuser.py:66-88 | the loop body for one recipient: localize, then try the subtitle and the audio in turn, ignoring failed sends; yields exactly `ForRecipient`'s attempts |
| `Broadcaster.FanoutSnoc` | multiuser.py:63-88 | iterating one more participant appends that participant's block, or nothing when it is the sender |
| `Broadcaster.Fanout` | multiuser.py:63-88 | no attempt goes to the sender; every attempt goes to a listed, registered participant on that participant's socket; at most two per participant |
| `Broadcaster.BroadcastSpec` | multiuser.py:59-88 | `broadcast` raises (`None`) exactly when the sender is not registered; otherwise nothing is addressed to the sender |
| `Broadcaster.Broadcast` | multiuser.py:59-88 | reads the sender's language from the registry (raising, `None`, when absent) and produces exactly the attempts of `BroadcastSpec` for the registry snapshot |
| `Broadcaster.BroadcastLoop` | multiuser.py:63-88 | the `for uid, info in clients.items()` loop produces exactly `Fanout`'s attempts, in iteration order |
| `Broadcaster.FanoutPerRecipient` | multiuser.py:63-88 | each registered non-sender receives exactly its own per-recipient attempts, once; the sender and unregistered ids receive nothing |
| `Broadcaster.SenderGetsNothing` | multiuser.py:63-65 | the sender and anyone outside the snapshot get no delivery from a broadcast |
| `Broadcaster.ForRecipientIsLocal` | multiuser.py:66-88 | a recipient's attempts depend only on the calls made for it and the sends on its own socket |
| `Broadcaster.RecipientIsolation` | multiuser.py:68-88 | failures of translation, synthesis or sending for other recipients do not change what a recipient receives |
| `Broadcaster.SendOutcomesDoNotMatter` | multiuser.py:78-88 | a failed send stops nothing: whatever the sends return, the same packets are attempted for the same recipients in the same order |
| `Broadcaster.ForRecipientBoth` | multiuser.py:68-88 | non-empty translation and audio give a Subtitle followed by an Audio packet |
| `Broadcaster.ForRecipientNothing` | multiuser.py:68-69 | a failed translation gives the recipient nothing |
| `Broadcaster.TwoPartyBroadcast` | multiuser.py:59-88 | A (en-US) says "hello" to B (es-MX): the log is B's Subtitle `{from A, en-US, hello, translation}` then B's Audio, and nothing for A |
| `Broadcaster.ThreePartyIsolation` | multiuser.py:59-88 | with localization failing only for C, B still gets its Subtitle and Audio while A and C get nothing |
| `Chunker.Chunk` | multiuser.py:105-112 | with no frames the chunker yields nothing and the buffer is unchanged |
| `Chunker.ChunkConserves` | multiuser.py:109-112 | no byte is lost or duplicated: the utterances followed by the final buffer are the initial buffer followed by all frames |
| `Chunker.ChunkBounds` | multiuser.py:110-112 | every utterance is at least 32000 bytes; after any frame the buffer is below 32000 |
| `Chunker.ChunkQuietIff` | multiuser.py:108-110 | the chunker yields nothing exactly when the total stays below 32000, and then the buffer is the concatenation of everything appended |
| `Chunker.ChunkFirstUtterance` | multiuser.py:109-112 | the first utterance is exactly the buffer plus the frames up to the first that reaches 32000; the buffer is then empty and the rest of the frames start afresh |
| `Chunker.UtteranceBuffer.constructor` | multiuser.py:105 | the buffer starts empty |
| `Chunker.UtteranceBuffer.Append` | multiuser.py:108-112 | `buffer += data`: at 32000 bytes or more the whole buffer is returned and the buffer is reset; below that nothing is returned and the chunk stays buffered; one step of `Chunk` |
| `ConnectionHandler.UtteranceLog` | multiuser.py:111-115 | an utterance whose recognition is missing or empty delivers nothing; it fails exactly when the text is non-empty and the speaker is unregistered; a non-empty text from a registered speaker delivers exactly the fan-out in the speaker's language; deliveries never go to the speaker |
| `ConnectionHandler.FrameStep` | multiuser.py:108-115 | one receive-loop pass: the buffer stays below 32000 bytes, and it is the old buffer plus the frame exactly when that stays below 32000; a fatal pass delivers nothing and happens only for an unregistered speaker; deliveries go to registered participants other than the speaker |
| `ConnectionHandler.SessionRun` | multiuser.py:105-121 | the whole receive loop against a fixed registry: it ends on an error only when the speaker is unregistered |
| `ConnectionHandler.SessionRunRecipients` | multiuser.py:105-121 | every delivery of a whole session goes to a registered participant other than the speaker |
| `ConnectionHandler.Spoken` | multiuser.py:111-113 | the broadcast texts are non-empty, at most one per utterance |
| `ConnectionHandler.SessionFollowsChunker` | multiuser.py:105-115 | a registered speaker's connection never fails and delivers exactly the broadcasts of the non-empty transcripts of the chunker's utterances, in order |
| `ConnectionHandler.SessionQuietBelowThreshold` | multiuser.py:108-110 | below 32000 bytes in total, recognition is never reached and nothing is delivered |
| `ConnectionHandler.UnregisteredSpeakerDeliversNothing` | multiuser.py:113-121 | if the speaker is missing from the registry, the `clients[sender_id]` lookup (line 61) raises and nothing is ever delivered |
| `ConnectionHandler.SpeakerHearsNothingBack` | multiuser.py:63-65 | over a whole session the speaker receives none of its own utterances |
| `ConnectionHandler.LeftParticipantGetsNothing` | multiuser.py:116-118 | a participant who has left receives nothing from later broadcasts |
| `ConnectionHandler.Connection.Open` | multiuser.py:96-102 | resolves the id (default numbered by the registry size) and the language, then joins as an upsert |
| `ConnectionHandler.Connection.OnFrame` | multiuser.py:107-115 | one loop pass: the buffer and deliveries follow `FrameStep`; a broadcast that raises closes the connection and leaves the registry, otherwise the registry is untouched |
| `ConnectionHandler.Connection.Close` | multiuser.py:116-121 | the connection ends and `pop`s its id |
| `ConnectionHandler.Connection.Run` | multiuser.py:105-121 | the whole loop delivers exactly `SessionRun`'s log; the connection ends closed, and its id has left the registry exactly once |

## Left out

- WebSocket framing (`accept`, `receive_text`, `receive_bytes`, `send_text`, `send_bytes`): inbound frames are a sequence of byte strings, and a send is an oracle that succeeds or fails. A non-binary frame makes `receive_bytes` raise; the model treats this like the end of the frames (the connection closes and leaves).
- The Google Cloud clients and the request construction (encoding, sample rate, punctuation, MP3 output): these are foreign calls, modelled as the function-typed fields of `Capabilities`. Each oracle is deterministic in its arguments, so a retry with the same arguments cannot get a different answer.
- JSON: the configuration arrives already parsed as optional `user_id` and `lang` strings. A malformed message, or one that is not an object, raises before the join and is not modelled. Neither is a `user_id` or `lang` key that is present with `null` or a non-string value: `data.get` returns that value instead of the default, and an `Option<string>` field cannot express it. The subtitle is a datatype value, not its `json.dumps` string.
- The health endpoint `/` and all `print` logging: trivial, or side effects only.
- Concurrency: `Broadcast`, `OnFrame` and `Run` work on a registry that no other connection changes while they run. Not modelled: joins and leaves of other connections between `await`s, and the `RuntimeError` that Python raises when the dict changes size during iteration.
- ConnectionHandler.Connection.Run: states its deliveries only for a fixed registry snapshot, because of the concurrency restriction above.
