/** The connection handler `conversation_socket`: join on the configuration
    message, then per inbound frame buffer, recognize and broadcast, and
    leave the registry when the connection ends. */
module ConnectionHandler {
  import opened Wrappers
  import opened RelayTypes
  import opened Recognition
  import opened SessionRegistry
  import opened Broadcaster
  import opened Chunker

  /** What one complete utterance leads to: nothing when recognition yields
      no text or empty text; otherwise the broadcast of that text, which is
      `None` when it raises because the speaker is no longer registered. */
  function UtteranceLog(caps: Capabilities, utterance: Bytes, lang: string, userId: string, ids: seq<string>, clients: map<string, Participant>): (r: Option<seq<Delivery>>)
    requires AllRegistered(ids, clients)
    ensures !IsTruthy(RecognizeAudio(caps, utterance, lang)) ==> r == Some([])
    ensures r.None? <==> IsTruthy(RecognizeAudio(caps, utterance, lang)) && userId !in clients
    ensures r.Some? ==> forall k :: 0 <= k < |r.value| ==> r.value[k].recipient != userId && r.value[k].recipient in clients
    ensures IsTruthy(RecognizeAudio(caps, utterance, lang)) && userId in clients ==>
      r == Some(Fanout(caps, ids, clients, userId, clients[userId].lang, RecognizeAudio(caps, utterance, lang).value))
  {
    var text := RecognizeAudio(caps, utterance, lang);
    if IsTruthy(text) then BroadcastSpec(caps, ids, clients, userId, text.value) else Some([])
  }

  /** The effect of one inbound frame on the buffer: the new buffer, the
      deliveries made, and whether the connection failed. */
  datatype FrameEffect = FrameEffect(pending: Bytes, log: seq<Delivery>, fatal: bool)

  /** One pass of the receive loop: `buffer += data`, and at the threshold
      recognize the buffer, broadcast a non-empty text and empty the buffer. */
  function FrameStep(caps: Capabilities, pending: Bytes, chunk: Bytes, lang: string, userId: string, ids: seq<string>, clients: map<string, Participant>): (r: FrameEffect)
    requires AllRegistered(ids, clients)
    ensures |r.pending| < Threshold
    ensures r.pending == pending + chunk <==> |pending + chunk| < Threshold
    ensures r.fatal ==> r.log == [] && userId !in clients
    ensures forall k :: 0 <= k < |r.log| ==> r.log[k].recipient != userId && r.log[k].recipient in clients
  {
    var acc := pending + chunk;
    if |acc| < Threshold then FrameEffect(acc, [], false)
    else
      match UtteranceLog(caps, acc, lang, userId, ids, clients)
      case None => FrameEffect([], [], true)
      case Some(log) => FrameEffect([], log, false)
  }

  /** The deliveries of a whole connection's frames against a fixed registry,
      and whether it ended on an error rather than on the end of the frames. */
  datatype SessionOutcome = SessionOutcome(log: seq<Delivery>, failed: bool)

  function SessionRun(caps: Capabilities, pending: Bytes, frames: seq<Bytes>, lang: string, userId: string, ids: seq<string>, clients: map<string, Participant>): (r: SessionOutcome)
    requires AllRegistered(ids, clients)
    ensures r.failed ==> userId !in clients
    decreases |frames|
  {
    if frames == [] then SessionOutcome([], false)
    else
      var step := FrameStep(caps, pending, frames[0], lang, userId, ids, clients);
      if step.fatal then SessionOutcome(step.log, true)
      else
        var rest := SessionRun(caps, step.pending, frames[1..], lang, userId, ids, clients);
        SessionOutcome(step.log + rest.log, rest.failed)
  }

  /** Every delivery in `log` goes to a registered participant other than
      `userId`. */
  predicate ToOthers(log: seq<Delivery>, userId: string, clients: map<string, Participant>) {
    forall k :: 0 <= k < |log| ==> log[k].recipient != userId && log[k].recipient in clients
  }

  lemma ToOthersAppend(a: seq<Delivery>, b: seq<Delivery>, userId: string, clients: map<string, Participant>)
    requires ToOthers(a, userId, clients) && ToOthers(b, userId, clients)
    ensures ToOthers(a + b, userId, clients)
  {
    assert forall k :: |a| <= k < |a + b| ==> (a + b)[k] == b[k - |a|];
  }

  /** Every delivery of a session goes to a registered participant other
      than the speaker. */
  lemma {:induction false} SessionRunRecipients(caps: Capabilities, pending: Bytes, frames: seq<Bytes>, lang: string, userId: string, ids: seq<string>, clients: map<string, Participant>)
    requires AllRegistered(ids, clients)
    ensures ToOthers(SessionRun(caps, pending, frames, lang, userId, ids, clients).log, userId, clients)
    decreases |frames|
  {
    if frames != [] {
      var step := FrameStep(caps, pending, frames[0], lang, userId, ids, clients);
      if !step.fatal {
        SessionRunRecipients(caps, step.pending, frames[1..], lang, userId, ids, clients);
        ToOthersAppend(step.log, SessionRun(caps, step.pending, frames[1..], lang, userId, ids, clients).log, userId, clients);
      }
    }
  }

  /** The texts recognition yields for the utterances, empty ones dropped:
      the texts that get broadcast. */
  function Spoken(caps: Capabilities, utterances: seq<Bytes>, lang: string): (texts: seq<string>)
    ensures |texts| <= |utterances|
    ensures forall k :: 0 <= k < |texts| ==> texts[k] != []
  {
    if utterances == [] then []
    else
      var text := RecognizeAudio(caps, utterances[0], lang);
      (if IsTruthy(text) then [text.value] else []) + Spoken(caps, utterances[1..], lang)
  }

  /** The broadcasts of the texts, one after the other. */
  function FanoutAll(caps: Capabilities, texts: seq<string>, ids: seq<string>, clients: map<string, Participant>, userId: string): seq<Delivery>
    requires AllRegistered(ids, clients) && userId in clients
  {
    if texts == [] then []
    else Fanout(caps, ids, clients, userId, clients[userId].lang, texts[0]) + FanoutAll(caps, texts[1..], ids, clients, userId)
  }

  /** A registered speaker's connection broadcasts exactly the non-empty
      transcripts of the utterances the chunker yields, in order, and never
      fails. */
  lemma {:induction false} SessionFollowsChunker(caps: Capabilities, pending: Bytes, frames: seq<Bytes>, lang: string, userId: string, ids: seq<string>, clients: map<string, Participant>)
    requires AllRegistered(ids, clients) && userId in clients
    ensures !SessionRun(caps, pending, frames, lang, userId, ids, clients).failed
    ensures SessionRun(caps, pending, frames, lang, userId, ids, clients).log
         == FanoutAll(caps, Spoken(caps, Chunk(pending, frames).utterances, lang), ids, clients, userId)
    decreases |frames|
  {
    if frames != [] {
      var acc := pending + frames[0];
      if |acc| >= Threshold {
        var c := Chunk([], frames[1..]);
        SessionFollowsChunker(caps, [], frames[1..], lang, userId, ids, clients);
        assert ([acc] + c.utterances)[1..] == c.utterances;
        var text := RecognizeAudio(caps, acc, lang);
        var later := Spoken(caps, c.utterances, lang);
        if IsTruthy(text) {
          assert Spoken(caps, [acc] + c.utterances, lang) == [text.value] + later;
          assert ([text.value] + later)[1..] == later;
        } else {
          assert Spoken(caps, [acc] + c.utterances, lang) == later;
          assert [] + FanoutAll(caps, later, ids, clients, userId) == FanoutAll(caps, later, ids, clients, userId);
        }
      } else {
        SessionFollowsChunker(caps, acc, frames[1..], lang, userId, ids, clients);
        assert [] + SessionRun(caps, acc, frames[1..], lang, userId, ids, clients).log
          == SessionRun(caps, acc, frames[1..], lang, userId, ids, clients).log;
      }
    }
  }

  /** While fewer than `Threshold` bytes have arrived, recognition is never
      reached and nothing is delivered. */
  lemma {:induction false} SessionQuietBelowThreshold(caps: Capabilities, pending: Bytes, frames: seq<Bytes>, lang: string, userId: string, ids: seq<string>, clients: map<string, Participant>)
    requires AllRegistered(ids, clients)
    requires |pending + Flatten(frames)| < Threshold
    ensures SessionRun(caps, pending, frames, lang, userId, ids, clients) == SessionOutcome([], false)
    decreases |frames|
  {
    if frames != [] {
      var acc := pending + frames[0];
      assert pending + Flatten(frames) == acc + Flatten(frames[1..]);
      SessionQuietBelowThreshold(caps, acc, frames[1..], lang, userId, ids, clients);
    }
  }

  /** A speaker missing from the registry delivers nothing: its first
      non-empty transcript makes `broadcast` raise and ends the connection. */
  lemma {:induction false} UnregisteredSpeakerDeliversNothing(caps: Capabilities, pending: Bytes, frames: seq<Bytes>, lang: string, userId: string, ids: seq<string>, clients: map<string, Participant>)
    requires AllRegistered(ids, clients) && userId !in clients
    ensures SessionRun(caps, pending, frames, lang, userId, ids, clients).log == []
    decreases |frames|
  {
    if frames != [] {
      var step := FrameStep(caps, pending, frames[0], lang, userId, ids, clients);
      if !step.fatal {
        UnregisteredSpeakerDeliversNothing(caps, step.pending, frames[1..], lang, userId, ids, clients);
      }
    }
  }

  /** A speaker never receives its own utterances. */
  lemma {:induction false} SpeakerHearsNothingBack(caps: Capabilities, texts: seq<string>, ids: seq<string>, clients: map<string, Participant>, userId: string)
    requires AllRegistered(ids, clients) && userId in clients && Distinct(ids)
    ensures DeliveriesTo(FanoutAll(caps, texts, ids, clients, userId), userId) == []
  {
    if texts != [] {
      var first := Fanout(caps, ids, clients, userId, clients[userId].lang, texts[0]);
      FanoutPerRecipient(caps, ids, clients, userId, clients[userId].lang, texts[0], userId);
      SpeakerHearsNothingBack(caps, texts[1..], ids, clients, userId);
      DeliveriesToAppend(first, FanoutAll(caps, texts[1..], ids, clients, userId), userId);
    }
  }

  datatype State = Active | Closed

  /** One WebSocket connection, from its configuration message on. */
  class Connection {
    const userId: string
    const lang: string
    const channel: ChannelId
    const registry: Registry
    const pending: UtteranceBuffer
    var state: State

    ghost predicate Valid()
      reads this, registry
    {
      registry.Valid()
    }

    /** The configuration message arrived: resolve the id (a default one
        numbered by the registry's size) and the language, and join. */
    constructor Open(config: Config, channel: ChannelId, registry: Registry)
      requires registry.Valid()
      modifies registry
      ensures Valid() && state == Active && this.registry == registry
      ensures userId == ResolveUserId(config, old(|registry.clients|))
      ensures lang == ResolveLang(config)
      ensures this.channel == channel
      ensures fresh(pending) && pending.buffer == []
      ensures registry.clients == old(registry.clients)[userId := Participant(channel, lang)]
      ensures registry.ids == if userId in old(registry.clients) then old(registry.ids) else old(registry.ids) + [userId]
    {
      var count := registry.Count();
      userId := ResolveUserId(config, count);
      lang := ResolveLang(config);
      this.channel := channel;
      this.registry := registry;
      pending := new UtteranceBuffer();
      state := Active;
      new;
      registry.Join(userId, Participant(channel, lang));
    }

    /** One pass of the receive loop: append the frame; on a complete
        utterance recognize it (the buffer is emptied whatever the outcome)
        and broadcast a non-empty transcript. A broadcast that raises ends
        the connection, which then leaves the registry. */
    method OnFrame(caps: Capabilities, chunk: Bytes) returns (log: seq<Delivery>)
      requires Valid() && state == Active
      modifies this, pending, registry
      ensures Valid()
      ensures AllRegistered(old(registry.ids), old(registry.clients))
      ensures var step := FrameStep(caps, old(pending.buffer), chunk, lang, userId, old(registry.ids), old(registry.clients));
        && pending.buffer == step.pending
        && log == step.log
        && (step.fatal ==> state == Closed && registry.clients == old(registry.clients) - {userId}
                           && registry.ids == Without(old(registry.ids), userId))
        && (!step.fatal ==> state == Active && registry.clients == old(registry.clients) && registry.ids == old(registry.ids))
    {
      log := [];
      var utterance := pending.Append(chunk);
      if utterance.Some? {
        var text := RecognizeAudio(caps, utterance.value, lang);
        if IsTruthy(text) {
          var sent := Broadcast(caps, registry, userId, text.value);
          if sent.None? {
            Close();
          } else {
            log := sent.value;
          }
        }
      }
    }

    /** The connection ends: leave the registry; a no-op there if a later
        connection with the same id has already left. */
    method Close()
      requires Valid() && state == Active
      modifies this, registry
      ensures Valid() && state == Closed
      ensures registry.clients == old(registry.clients) - {userId}
      ensures registry.ids == Without(old(registry.ids), userId)
    {
      registry.Leave(userId);
      state := Closed;
    }

    /** The whole receive loop over the frames the client sends, then the
        disconnect. With no other connection touching the registry in the
        meantime, the deliveries are those of `SessionRun`, and the speaker
        leaves the registry exactly once. */
    method Run(caps: Capabilities, frames: seq<Bytes>) returns (log: seq<Delivery>)
      requires Valid() && state == Active
      modifies this, pending, registry
      ensures Valid() && state == Closed
      ensures AllRegistered(old(registry.ids), old(registry.clients))
      ensures registry.clients == old(registry.clients) - {userId}
      ensures registry.ids == Without(old(registry.ids), userId)
      ensures log == SessionRun(caps, old(pending.buffer), frames, lang, userId, old(registry.ids), old(registry.clients)).log
    {
      ghost var ids0, clients0 := registry.ids, registry.clients;
      ghost var pending0 := pending.buffer;
      assert AllRegistered(ids0, clients0);
      log := [];
      var i := 0;
      while i < |frames| && state == Active
        invariant 0 <= i <= |frames|
        invariant Valid()
        invariant state == Active ==> (
          && registry.ids == ids0 && registry.clients == clients0
          && log + SessionRun(caps, pending.buffer, frames[i..], lang, userId, ids0, clients0).log
             == SessionRun(caps, pending0, frames, lang, userId, ids0, clients0).log)
        invariant state == Closed ==> (
          && registry.clients == clients0 - {userId}
          && registry.ids == Without(ids0, userId)
          && log == SessionRun(caps, pending0, frames, lang, userId, ids0, clients0).log)
      {
        ghost var before := pending.buffer;
        assert frames[i..][0] == frames[i] && frames[i..][1..] == frames[i + 1..];
        var delivered := OnFrame(caps, frames[i]);
        ghost var step := FrameStep(caps, before, frames[i], lang, userId, ids0, clients0);
        if !step.fatal {
          assert log + (step.log + SessionRun(caps, pending.buffer, frames[i + 1..], lang, userId, ids0, clients0).log)
              == (log + delivered) + SessionRun(caps, pending.buffer, frames[i + 1..], lang, userId, ids0, clients0).log;
        } else {
          assert delivered == [];
          assert log + delivered == log;
        }
        log := log + delivered;
        i := i + 1;
      }
      if state == Active {
        assert frames[i..] == [];
        assert log + [] == log;
        Close();
      }
    }
  }

  /** A participant who has disconnected receives nothing from any later
      broadcast. */
  lemma LeftParticipantGetsNothing(caps: Capabilities, ids: seq<string>, clients: map<string, Participant>, speaker: string, text: string, gone: string)
    requires AllRegistered(Without(ids, gone), clients - {gone}) && Distinct(ids)
    requires BroadcastSpec(caps, Without(ids, gone), clients - {gone}, speaker, text).Some?
    ensures DeliveriesTo(BroadcastSpec(caps, Without(ids, gone), clients - {gone}, speaker, text).value, gone) == []
  {
    SenderGetsNothing(caps, Without(ids, gone), clients - {gone}, speaker, text, gone);
  }
}
