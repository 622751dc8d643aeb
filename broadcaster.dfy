/** The broadcaster: `broadcast(sender_id, text)` fans one recognized
    utterance out to every other registered participant. */
module Broadcaster {
  import opened Wrappers
  import opened RelayTypes
  import opened TextHelpers
  import opened Localization
  import opened SessionRegistry

  /** The attempts made for one recipient: localize for its language, send a
      subtitle if the translation is non-empty, then send the audio if it is
      non-empty. Each send's outcome is recorded and has no further effect. */
  function ForRecipient(caps: Capabilities, uid: string, info: Participant, sender: string, senderLang: string, text: string): (r: seq<Delivery>)
    ensures |r| <= 2
    ensures forall k :: 0 <= k < |r| ==> r[k].recipient == uid && r[k].channel == info.channel
  {
    var loc := Localize(caps, uid, text, info.lang);
    var subtitle :=
      if IsTruthy(loc.translated) then
        var packet := Subtitle(sender, senderLang, text, loc.translated.value);
        [Delivery(uid, info.channel, packet, caps.send(info.channel, packet))]
      else [];
    var audio :=
      if IsTruthyBytes(loc.audio) then
        var packet := Audio(loc.audio.value);
        [Delivery(uid, info.channel, packet, caps.send(info.channel, packet))]
      else [];
    subtitle + audio
  }

  /** A recipient's block: a Subtitle (sender id, sender language, original
      and translated text) exactly when the translation is non-empty, then an
      Audio packet exactly when the audio is non-empty, each send's outcome
      recorded. */
  lemma ForRecipientShape(caps: Capabilities, uid: string, info: Participant, sender: string, senderLang: string, text: string)
    ensures var r := ForRecipient(caps, uid, info, sender, senderLang, text);
      var loc := Localize(caps, uid, text, info.lang);
      && |r| == (if IsTruthy(loc.translated) then 1 else 0) + (if IsTruthyBytes(loc.audio) then 1 else 0)
      && (forall k :: 0 <= k < |r| ==> r[k].sent == caps.send(info.channel, r[k].packet))
      && (IsTruthy(loc.translated) ==> r[0].packet == Subtitle(sender, senderLang, text, loc.translated.value))
      && (IsTruthyBytes(loc.audio) ==> r[|r| - 1].packet == Audio(loc.audio.value))
      && (!IsTruthy(loc.translated) ==> forall k :: 0 <= k < |r| ==> r[k].packet.Audio?)
      && (!IsTruthyBytes(loc.audio) ==> forall k :: 0 <= k < |r| ==> r[k].packet.Subtitle?)
  {
  }

  predicate AllRegistered(ids: seq<string>, clients: map<string, Participant>) {
    forall i :: 0 <= i < |ids| ==> ids[i] in clients
  }

  /** The attempts for the participants `ids`, in that order, skipping the sender. */
  function Fanout(caps: Capabilities, ids: seq<string>, clients: map<string, Participant>, sender: string, senderLang: string, text: string): (r: seq<Delivery>)
    requires AllRegistered(ids, clients)
    ensures forall k :: 0 <= k < |r| ==> r[k].recipient != sender && r[k].recipient in ids
    ensures forall k :: 0 <= k < |r| ==> r[k].recipient in clients && r[k].channel == clients[r[k].recipient].channel
    ensures |r| <= 2 * |ids|
  {
    if ids == [] then []
    else
      var uid := ids[|ids| - 1];
      var before := Fanout(caps, ids[..|ids| - 1], clients, sender, senderLang, text);
      before + (if uid == sender then [] else ForRecipient(caps, uid, clients[uid], sender, senderLang, text))
  }

  lemma FanoutSnoc(caps: Capabilities, ids: seq<string>, clients: map<string, Participant>, sender: string, senderLang: string, text: string)
    requires AllRegistered(ids, clients) && ids != []
    ensures AllRegistered(ids[..|ids| - 1], clients)
    ensures var last := ids[|ids| - 1];
      Fanout(caps, ids, clients, sender, senderLang, text)
        == Fanout(caps, ids[..|ids| - 1], clients, sender, senderLang, text)
           + (if last == sender then [] else ForRecipient(caps, last, clients[last], sender, senderLang, text))
  {
  }

  /** `broadcast(sender_id, text)` against a snapshot of the registry:
      `None` when `clients[sender_id]` raises because the sender is not
      registered (nothing is sent); otherwise the attempts of every
      recipient in iteration order. */
  function BroadcastSpec(caps: Capabilities, ids: seq<string>, clients: map<string, Participant>, sender: string, text: string): (r: Option<seq<Delivery>>)
    requires AllRegistered(ids, clients)
    ensures r.None? <==> sender !in clients
    ensures r.Some? ==> forall k :: 0 <= k < |r.value| ==> r.value[k].recipient != sender
  {
    if sender !in clients then None
    else Some(Fanout(caps, ids, clients, sender, clients[sender].lang, text))
  }

  /** `broadcast` on the live registry: the sender's language is read
      from `clients`, then the loop runs over a snapshot of it. */
  method Broadcast(caps: Capabilities, reg: Registry, sender: string, text: string) returns (r: Option<seq<Delivery>>)
    requires reg.Valid()
    ensures AllRegistered(reg.ids, reg.clients)
    ensures r == BroadcastSpec(caps, reg.ids, reg.clients, sender, text)
  {
    var ids, clients := reg.ids, reg.clients;
    assert AllRegistered(ids, clients);
    if sender !in clients {
      return None;
    }
    var log := BroadcastLoop(caps, ids, clients, sender, clients[sender].lang, text);
    r := Some(log);
  }

  /** The loop over `clients.items()`: one localization and up to two send
      attempts per recipient, the failures swallowed. */
  method BroadcastLoop(caps: Capabilities, ids: seq<string>, clients: map<string, Participant>, sender: string, senderLang: string, text: string) returns (log: seq<Delivery>)
    requires AllRegistered(ids, clients)
    ensures log == Fanout(caps, ids, clients, sender, senderLang, text)
  {
    log := [];
    for i := 0 to |ids|
      invariant AllRegistered(ids[..i], clients)
      invariant log == Fanout(caps, ids[..i], clients, sender, senderLang, text)
    {
      var block: seq<Delivery> := [];
      if ids[i] != sender {
        block := DeliverTo(caps, ids[i], clients[ids[i]], sender, senderLang, text);
      }
      FanoutPrefixStep(caps, ids, clients, sender, senderLang, text, i);
      log := log + block;
    }
    assert ids[..|ids|] == ids;
  }

  /** One more participant of `ids` extends the prefix's attempts by that
      participant's block. */
  lemma FanoutPrefixStep(caps: Capabilities, ids: seq<string>, clients: map<string, Participant>, sender: string, senderLang: string, text: string, i: nat)
    requires AllRegistered(ids, clients) && i < |ids|
    ensures AllRegistered(ids[..i], clients) && AllRegistered(ids[..i + 1], clients)
    ensures Fanout(caps, ids[..i + 1], clients, sender, senderLang, text)
      == Fanout(caps, ids[..i], clients, sender, senderLang, text)
         + (if ids[i] == sender then [] else ForRecipient(caps, ids[i], clients[ids[i]], sender, senderLang, text))
  {
    FanoutSnoc(caps, ids[..i + 1], clients, sender, senderLang, text);
    assert ids[..i + 1][..i] == ids[..i];
  }

  /** The body of the loop for one recipient: localize, then try the
      subtitle and the audio in turn, ignoring failed sends. It is the
      statement-by-statement form of `ForRecipient`, about which the
      properties of a recipient's block are proved. */
  method DeliverTo(caps: Capabilities, uid: string, info: Participant, sender: string, senderLang: string, text: string) returns (block: seq<Delivery>)
    ensures block == ForRecipient(caps, uid, info, sender, senderLang, text)
  {
    block := [];
    var loc := Localize(caps, uid, text, info.lang);
    if IsTruthy(loc.translated) {
      var packet := Subtitle(sender, senderLang, text, loc.translated.value);
      var ok := caps.send(info.channel, packet);
      block := block + [Delivery(uid, info.channel, packet, ok)];
    }
    if IsTruthyBytes(loc.audio) {
      var packet := Audio(loc.audio.value);
      var ok := caps.send(info.channel, packet);
      block := block + [Delivery(uid, info.channel, packet, ok)];
    }
  }

  /** The attempts in `log` addressed to `uid`, in order. */
  function DeliveriesTo(log: seq<Delivery>, uid: string): (r: seq<Delivery>)
    ensures |r| <= |log|
    ensures forall k :: 0 <= k < |r| ==> r[k].recipient == uid
  {
    if log == [] then []
    else (if log[0].recipient == uid then [log[0]] else []) + DeliveriesTo(log[1..], uid)
  }

  lemma {:induction false} DeliveriesToAppend(a: seq<Delivery>, b: seq<Delivery>, uid: string)
    ensures DeliveriesTo(a + b, uid) == DeliveriesTo(a, uid) + DeliveriesTo(b, uid)
  {
    if a == [] {
      assert a + b == b;
    } else {
      assert (a + b)[1..] == a[1..] + b;
      DeliveriesToAppend(a[1..], b, uid);
    }
  }

  lemma {:induction false} DeliveriesToAllFor(log: seq<Delivery>, uid: string)
    requires forall k :: 0 <= k < |log| ==> log[k].recipient == uid
    ensures DeliveriesTo(log, uid) == log
  {
    if log != [] {
      DeliveriesToAllFor(log[1..], uid);
    }
  }

  lemma {:induction false} DeliveriesToNoneFor(log: seq<Delivery>, uid: string)
    requires forall k :: 0 <= k < |log| ==> log[k].recipient != uid
    ensures DeliveriesTo(log, uid) == []
  {
    if log != [] {
      DeliveriesToNoneFor(log[1..], uid);
    }
  }

  /** What one participant receives from a fan-out: exactly its own
      per-recipient attempts when it is registered and is not the sender,
      and nothing otherwise. Since the registry lists each id once, nobody is
      served twice. */
  lemma {:induction false} FanoutPerRecipient(caps: Capabilities, ids: seq<string>, clients: map<string, Participant>, sender: string, senderLang: string, text: string, uid: string)
    requires AllRegistered(ids, clients) && Distinct(ids)
    ensures DeliveriesTo(Fanout(caps, ids, clients, sender, senderLang, text), uid)
      == if uid in ids && uid != sender then ForRecipient(caps, uid, clients[uid], sender, senderLang, text) else []
  {
    if ids != [] {
      var last := ids[|ids| - 1];
      var init := ids[..|ids| - 1];
      DistinctSnoc(ids);
      var before := Fanout(caps, init, clients, sender, senderLang, text);
      var step := if last == sender then [] else ForRecipient(caps, last, clients[last], sender, senderLang, text);
      FanoutPerRecipient(caps, init, clients, sender, senderLang, text, uid);
      DeliveriesToAppend(before, step, uid);
      StepDeliveriesTo(caps, last, clients[last], sender, senderLang, text, uid);
    }
  }

  /** Splitting a registry order into its last id and the rest. */
  lemma DistinctSnoc(ids: seq<string>)
    requires ids != []
    ensures var init := ids[..|ids| - 1];
      && (forall x :: x in ids <==> x in init || x == ids[|ids| - 1])
      && (forall i :: 0 <= i < |init| ==> init[i] == ids[i])
      && (Distinct(ids) ==> Distinct(init) && ids[|ids| - 1] !in init)
  {
    var init := ids[..|ids| - 1];
    assert ids == init + [ids[|ids| - 1]];
    if Distinct(ids) {
      forall k | 0 <= k < |init|
        ensures init[k] != ids[|ids| - 1]
      {
        assert init[k] == ids[k];
      }
    }
  }

  /** The block a single registry entry contributes is addressed to that
      entry's id only. */
  lemma StepDeliveriesTo(caps: Capabilities, uid: string, info: Participant, sender: string, senderLang: string, text: string, who: string)
    ensures DeliveriesTo(if uid == sender then [] else ForRecipient(caps, uid, info, sender, senderLang, text), who)
         == if uid == who && uid != sender then ForRecipient(caps, uid, info, sender, senderLang, text) else []
  {
    if uid != sender {
      var r := ForRecipient(caps, uid, info, sender, senderLang, text);
      if uid == who {
        DeliveriesToAllFor(r, who);
      } else {
        DeliveriesToNoneFor(r, who);
      }
    }
  }

  /** The sender never receives its own utterance back, and neither does
      anybody outside the registry snapshot. */
  lemma SenderGetsNothing(caps: Capabilities, ids: seq<string>, clients: map<string, Participant>, sender: string, text: string, uid: string)
    requires AllRegistered(ids, clients) && Distinct(ids)
    requires uid == sender || uid !in ids
    requires BroadcastSpec(caps, ids, clients, sender, text).Some?
    ensures DeliveriesTo(BroadcastSpec(caps, ids, clients, sender, text).value, uid) == []
  {
    FanoutPerRecipient(caps, ids, clients, sender, clients[sender].lang, text, uid);
  }

  /** Recipient isolation: what `uid` receives depends on the external calls
      made for `uid` and the sends on its own socket only, so failures for any
      other recipient cannot change it. */
  lemma RecipientIsolation(caps1: Capabilities, caps2: Capabilities, ids: seq<string>, clients: map<string, Participant>, sender: string, senderLang: string, text: string, uid: string)
    requires AllRegistered(ids, clients) && Distinct(ids)
    requires uid in clients
    requires forall t, l :: caps1.translate(uid, t, l) == caps2.translate(uid, t, l)
    requires forall t, l, v :: caps1.synthesize(uid, t, l, v) == caps2.synthesize(uid, t, l, v)
    requires forall p :: caps1.send(clients[uid].channel, p) == caps2.send(clients[uid].channel, p)
    ensures DeliveriesTo(Fanout(caps1, ids, clients, sender, senderLang, text), uid)
         == DeliveriesTo(Fanout(caps2, ids, clients, sender, senderLang, text), uid)
  {
    FanoutPerRecipient(caps1, ids, clients, sender, senderLang, text, uid);
    FanoutPerRecipient(caps2, ids, clients, sender, senderLang, text, uid);
    if uid in ids && uid != sender {
      ForRecipientIsLocal(caps1, caps2, uid, clients[uid], sender, senderLang, text);
    }
  }

  lemma ForRecipientIsLocal(caps1: Capabilities, caps2: Capabilities, uid: string, info: Participant, sender: string, senderLang: string, text: string)
    requires forall t, l :: caps1.translate(uid, t, l) == caps2.translate(uid, t, l)
    requires forall t, l, v :: caps1.synthesize(uid, t, l, v) == caps2.synthesize(uid, t, l, v)
    requires forall p :: caps1.send(info.channel, p) == caps2.send(info.channel, p)
    ensures ForRecipient(caps1, uid, info, sender, senderLang, text) == ForRecipient(caps2, uid, info, sender, senderLang, text)
  {
    var base := BaseLanguage(info.lang);
    assert caps1.translate(uid, text, base) == caps2.translate(uid, text, base);
    if caps1.translate(uid, text, base).Some? {
      var tr := caps1.translate(uid, text, base).value;
      assert caps1.synthesize(uid, tr, info.lang, VoiceName(info.lang)) == caps2.synthesize(uid, tr, info.lang, VoiceName(info.lang));
    }
    var loc := Localize(caps1, uid, text, info.lang);
    assert loc == Localize(caps2, uid, text, info.lang);
    if IsTruthy(loc.translated) {
      var packet := Subtitle(sender, senderLang, text, loc.translated.value);
      assert caps1.send(info.channel, packet) == caps2.send(info.channel, packet);
    }
    if IsTruthyBytes(loc.audio) {
      var packet := Audio(loc.audio.value);
      assert caps1.send(info.channel, packet) == caps2.send(info.channel, packet);
    }
  }

  /** The attempt without its outcome. */
  function Attempt(d: Delivery): (string, ChannelId, Packet) {
    (d.recipient, d.channel, d.packet)
  }

  /** A failed send stops nothing: whatever the sends return, the same
      packets are attempted for the same recipients in the same order. */
  lemma {:induction false} SendOutcomesDoNotMatter(caps1: Capabilities, caps2: Capabilities, ids: seq<string>, clients: map<string, Participant>, sender: string, senderLang: string, text: string)
    requires AllRegistered(ids, clients)
    requires caps1.translate == caps2.translate && caps1.synthesize == caps2.synthesize
    ensures SameAttempts(Fanout(caps1, ids, clients, sender, senderLang, text), Fanout(caps2, ids, clients, sender, senderLang, text))
  {
    if ids != [] {
      var last := ids[|ids| - 1];
      var init := ids[..|ids| - 1];
      FanoutSnoc(caps1, ids, clients, sender, senderLang, text);
      FanoutSnoc(caps2, ids, clients, sender, senderLang, text);
      SendOutcomesDoNotMatter(caps1, caps2, init, clients, sender, senderLang, text);
      if last != sender {
        ForRecipientSameAttempts(caps1, caps2, last, clients[last], sender, senderLang, text);
      }
      SameAttemptsAppend(
        Fanout(caps1, init, clients, sender, senderLang, text),
        Fanout(caps2, init, clients, sender, senderLang, text),
        if last == sender then [] else ForRecipient(caps1, last, clients[last], sender, senderLang, text),
        if last == sender then [] else ForRecipient(caps2, last, clients[last], sender, senderLang, text));
    }
  }

  /** Two logs attempt the same packets for the same recipients in the same
      order, whatever the outcomes. */
  predicate SameAttempts(a: seq<Delivery>, b: seq<Delivery>) {
    |a| == |b| && forall k :: 0 <= k < |a| ==> Attempt(a[k]) == Attempt(b[k])
  }

  lemma SameAttemptsAppend(a1: seq<Delivery>, a2: seq<Delivery>, b1: seq<Delivery>, b2: seq<Delivery>)
    requires SameAttempts(a1, a2) && SameAttempts(b1, b2)
    ensures SameAttempts(a1 + b1, a2 + b2)
  {
    forall k | 0 <= k < |a1 + b1|
      ensures Attempt((a1 + b1)[k]) == Attempt((a2 + b2)[k])
    {
      if k >= |a1| {
        assert (a1 + b1)[k] == b1[k - |a1|] && (a2 + b2)[k] == b2[k - |a1|];
      }
    }
  }

  lemma ForRecipientSameAttempts(caps1: Capabilities, caps2: Capabilities, uid: string, info: Participant, sender: string, senderLang: string, text: string)
    requires caps1.translate == caps2.translate && caps1.synthesize == caps2.synthesize
    ensures SameAttempts(ForRecipient(caps1, uid, info, sender, senderLang, text), ForRecipient(caps2, uid, info, sender, senderLang, text))
  {
    assert Localize(caps1, uid, text, info.lang) == Localize(caps2, uid, text, info.lang);
  }

  /** Both localization steps succeed with non-empty results: the recipient
      gets a subtitle and then the audio. */
  lemma ForRecipientBoth(caps: Capabilities, uid: string, info: Participant, sender: string, senderLang: string, text: string, translated: string, audio: Bytes)
    requires Localize(caps, uid, text, info.lang) == Localized(Some(translated), Some(audio))
    requires translated != [] && audio != []
    ensures ForRecipient(caps, uid, info, sender, senderLang, text) == [
      Delivery(uid, info.channel, Subtitle(sender, senderLang, text, translated), caps.send(info.channel, Subtitle(sender, senderLang, text, translated))),
      Delivery(uid, info.channel, Audio(audio), caps.send(info.channel, Audio(audio)))]
  {
  }

  /** Translation failed: the recipient gets nothing. */
  lemma ForRecipientNothing(caps: Capabilities, uid: string, info: Participant, sender: string, senderLang: string, text: string)
    requires caps.translate(uid, text, BaseLanguage(info.lang)).None?
    ensures ForRecipient(caps, uid, info, sender, senderLang, text) == []
  {
  }

  /** Two participants, A speaking "en-US" and B listening in "es-MX": B gets
      the subtitle and then the audio, and A gets nothing. */
  lemma TwoPartyBroadcast(caps: Capabilities, chA: ChannelId, chB: ChannelId, translated: string, audio: Bytes)
    requires caps.translate("B", "hello", "es") == Some(translated) && translated != []
    requires caps.synthesize("B", translated, "es-MX", "es-MX-Standard-A") == Some(audio) && audio != []
    ensures var clients := map["A" := Participant(chA, "en-US"), "B" := Participant(chB, "es-MX")];
      && AllRegistered(["A", "B"], clients)
      && BroadcastSpec(caps, ["A", "B"], clients, "A", "hello") == Some([
           Delivery("B", chB, Subtitle("A", "en-US", "hello", translated), caps.send(chB, Subtitle("A", "en-US", "hello", translated))),
           Delivery("B", chB, Audio(audio), caps.send(chB, Audio(audio)))])
  {
    var clients := map["A" := Participant(chA, "en-US"), "B" := Participant(chB, "es-MX")];
    var ids := ["A", "B"];
    assert AllRegistered(ids, clients);
    SpanishBase();
    LocalizeSucceeds(caps, "B", "hello", "es-MX", translated, audio);
    ForRecipientBoth(caps, "B", clients["B"], "A", "en-US", "hello", translated, audio);
    assert ids[..1] == ["A"];
    assert ["A"][..0] == [];
    assert Fanout(caps, ["A"], clients, "A", "en-US", "hello") == [];
    assert Fanout(caps, ids, clients, "A", "en-US", "hello")
      == Fanout(caps, ["A"], clients, "A", "en-US", "hello") + ForRecipient(caps, "B", clients["B"], "A", "en-US", "hello");
    assert clients["A"].lang == "en-US";
    assert "A" in clients;
    var fr := ForRecipient(caps, "B", clients["B"], "A", "en-US", "hello");
    assert [] + fr == fr;
    assert Fanout(caps, ids, clients, "A", "en-US", "hello") == fr;
    assert BroadcastSpec(caps, ids, clients, "A", "hello") == Some(ForRecipient(caps, "B", clients["B"], "A", "en-US", "hello"));
    assert clients["B"].channel == chB;
  }

  /** The registry of the three-party scenario. */
  function ThreeParties(chA: ChannelId, chB: ChannelId, chC: ChannelId): map<string, Participant> {
    map["A" := Participant(chA, "en-US"), "B" := Participant(chB, "es-MX"), "C" := Participant(chC, "fr-FR")]
  }

  /** Three participants where localization fails only for C: B still gets
      its subtitle and audio, C and the sender A get nothing. */
  lemma ThreePartyIsolation(caps: Capabilities, chA: ChannelId, chB: ChannelId, chC: ChannelId, translated: string, audio: Bytes)
    requires caps.translate("B", "hello", "es") == Some(translated) && translated != []
    requires caps.synthesize("B", translated, "es-MX", "es-MX-Standard-A") == Some(audio) && audio != []
    requires caps.translate("C", "hello", "fr") == None
    ensures AllRegistered(["A", "B", "C"], ThreeParties(chA, chB, chC))
    ensures var log := Fanout(caps, ["A", "B", "C"], ThreeParties(chA, chB, chC), "A", "en-US", "hello");
      && BroadcastSpec(caps, ["A", "B", "C"], ThreeParties(chA, chB, chC), "A", "hello") == Some(log)
      && DeliveriesTo(log, "A") == []
      && DeliveriesTo(log, "C") == []
      && DeliveriesTo(log, "B") == [
           Delivery("B", chB, Subtitle("A", "en-US", "hello", translated), caps.send(chB, Subtitle("A", "en-US", "hello", translated))),
           Delivery("B", chB, Audio(audio), caps.send(chB, Audio(audio)))]
  {
    ThreePartyA(caps, chA, chB, chC);
    ThreePartyB(caps, chA, chB, chC, translated, audio);
    ThreePartyC(caps, chA, chB, chC);
  }

  lemma ThreePartyA(caps: Capabilities, chA: ChannelId, chB: ChannelId, chC: ChannelId)
    ensures AllRegistered(["A", "B", "C"], ThreeParties(chA, chB, chC))
    ensures DeliveriesTo(Fanout(caps, ["A", "B", "C"], ThreeParties(chA, chB, chC), "A", "en-US", "hello"), "A") == []
  {
    assert Distinct(["A", "B", "C"]);
    FanoutPerRecipient(caps, ["A", "B", "C"], ThreeParties(chA, chB, chC), "A", "en-US", "hello", "A");
  }

  lemma ThreePartyB(caps: Capabilities, chA: ChannelId, chB: ChannelId, chC: ChannelId, translated: string, audio: Bytes)
    requires caps.translate("B", "hello", "es") == Some(translated) && translated != []
    requires caps.synthesize("B", translated, "es-MX", "es-MX-Standard-A") == Some(audio) && audio != []
    ensures AllRegistered(["A", "B", "C"], ThreeParties(chA, chB, chC))
    ensures DeliveriesTo(Fanout(caps, ["A", "B", "C"], ThreeParties(chA, chB, chC), "A", "en-US", "hello"), "B") == [
           Delivery("B", chB, Subtitle("A", "en-US", "hello", translated), caps.send(chB, Subtitle("A", "en-US", "hello", translated))),
           Delivery("B", chB, Audio(audio), caps.send(chB, Audio(audio)))]
  {
    var clients := ThreeParties(chA, chB, chC);
    assert clients["B"] == Participant(chB, "es-MX");
    SpanishSubtitleAndAudio(caps, chB, translated, audio);
    BlockOfListedRecipient(caps, ["A", "B", "C"], clients, "A", "en-US", "hello", "B",
      ForRecipient(caps, "B", Participant(chB, "es-MX"), "A", "en-US", "hello"));
  }

  /** A listed participant other than the sender receives exactly its own block. */
  lemma BlockOfListedRecipient(caps: Capabilities, ids: seq<string>, clients: map<string, Participant>, sender: string, senderLang: string, text: string, uid: string, block: seq<Delivery>)
    requires AllRegistered(ids, clients) && Distinct(ids)
    requires uid in ids && uid != sender
    requires ForRecipient(caps, uid, clients[uid], sender, senderLang, text) == block
    ensures DeliveriesTo(Fanout(caps, ids, clients, sender, senderLang, text), uid) == block
  {
    FanoutPerRecipient(caps, ids, clients, sender, senderLang, text, uid);
  }

  lemma SpanishSubtitleAndAudio(caps: Capabilities, chB: ChannelId, translated: string, audio: Bytes)
    requires caps.translate("B", "hello", "es") == Some(translated) && translated != []
    requires caps.synthesize("B", translated, "es-MX", "es-MX-Standard-A") == Some(audio) && audio != []
    ensures ForRecipient(caps, "B", Participant(chB, "es-MX"), "A", "en-US", "hello") == [
           Delivery("B", chB, Subtitle("A", "en-US", "hello", translated), caps.send(chB, Subtitle("A", "en-US", "hello", translated))),
           Delivery("B", chB, Audio(audio), caps.send(chB, Audio(audio)))]
  {
    SpanishBase();
    LocalizeSucceeds(caps, "B", "hello", "es-MX", translated, audio);
    ForRecipientBoth(caps, "B", Participant(chB, "es-MX"), "A", "en-US", "hello", translated, audio);
  }

  lemma ThreePartyC(caps: Capabilities, chA: ChannelId, chB: ChannelId, chC: ChannelId)
    requires caps.translate("C", "hello", "fr") == None
    ensures AllRegistered(["A", "B", "C"], ThreeParties(chA, chB, chC))
    ensures DeliveriesTo(Fanout(caps, ["A", "B", "C"], ThreeParties(chA, chB, chC), "A", "en-US", "hello"), "C") == []
  {
    var clients := ThreeParties(chA, chB, chC);
    assert Distinct(["A", "B", "C"]);
    FrenchBase();
    FanoutPerRecipient(caps, ["A", "B", "C"], clients, "A", "en-US", "hello", "C");
    ForRecipientNothing(caps, "C", clients["C"], "A", "en-US", "hello");
  }
}
