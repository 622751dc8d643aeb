/** The utterance buffer of `conversation_socket`: inbound frames are
    appended until at least `Threshold` bytes have accumulated, then the
    whole buffer becomes one utterance and the buffer starts again empty. */
module Chunker {
  import opened Wrappers
  import opened RelayTypes

  /** The frames laid end to end. */
  function Flatten(frames: seq<Bytes>): (r: Bytes)
    ensures frames != [] ==> |r| >= |frames[0]|
  {
    if frames == [] then [] else frames[0] + Flatten(frames[1..])
  }

  lemma {:induction false} FlattenAppendOne(frames: seq<Bytes>, f: Bytes)
    ensures Flatten(frames + [f]) == Flatten(frames) + f
  {
    if frames == [] {
      assert [f][1..] == [];
    } else {
      assert (frames + [f])[1..] == frames[1..] + [f];
      FlattenAppendOne(frames[1..], f);
    }
  }

  /** What a run of frames does to a buffer holding `pending`: the utterances
      it yields, in order, and what is left in the buffer. */
  datatype Chunking = Chunking(utterances: seq<Bytes>, rest: Bytes)

  /** The reference definition of the chunker over a whole run of frames. */
  function Chunk(pending: Bytes, frames: seq<Bytes>): (c: Chunking)
    ensures frames == [] ==> c == Chunking([], pending)
    decreases |frames|
  {
    if frames == [] then Chunking([], pending)
    else
      var acc := pending + frames[0];
      if |acc| >= Threshold then
        var c := Chunk([], frames[1..]);
        Chunking([acc] + c.utterances, c.rest)
      else
        Chunk(acc, frames[1..])
  }

  /** No byte is lost or duplicated: the utterances and the final buffer,
      laid end to end, are the initial buffer followed by every frame. */
  lemma {:induction false} ChunkConserves(pending: Bytes, frames: seq<Bytes>)
    ensures Flatten(Chunk(pending, frames).utterances) + Chunk(pending, frames).rest == pending + Flatten(frames)
    decreases |frames|
  {
    if frames != [] {
      var acc := pending + frames[0];
      assert pending + Flatten(frames) == acc + Flatten(frames[1..]);
      if |acc| >= Threshold {
        var c := Chunk([], frames[1..]);
        ChunkConserves([], frames[1..]);
        assert ([acc] + c.utterances)[1..] == c.utterances;
        assert Flatten([acc] + c.utterances) == acc + Flatten(c.utterances);
        assert [] + Flatten(frames[1..]) == Flatten(frames[1..]);
      } else {
        ChunkConserves(acc, frames[1..]);
      }
    }
  }

  /** Every utterance holds at least `Threshold` bytes, and once a frame has
      arrived the buffer is left below the threshold. */
  lemma {:induction false} ChunkBounds(pending: Bytes, frames: seq<Bytes>)
    ensures forall k :: 0 <= k < |Chunk(pending, frames).utterances| ==> |Chunk(pending, frames).utterances[k]| >= Threshold
    ensures frames != [] ==> |Chunk(pending, frames).rest| < Threshold
    decreases |frames|
  {
    if frames != [] {
      var acc := pending + frames[0];
      if |acc| >= Threshold {
        ChunkBounds([], frames[1..]);
      } else {
        ChunkBounds(acc, frames[1..]);
      }
    }
  }

  /** Below the threshold the chunker stays quiet and the buffer is the
      concatenation of everything appended; at or above it, it fires. */
  lemma ChunkQuietIff(pending: Bytes, frames: seq<Bytes>)
    requires |pending| < Threshold
    ensures Chunk(pending, frames).utterances == [] <==> |pending + Flatten(frames)| < Threshold
    ensures Chunk(pending, frames).utterances == [] ==> Chunk(pending, frames).rest == pending + Flatten(frames)
  {
    var c := Chunk(pending, frames);
    ChunkConserves(pending, frames);
    ChunkBounds(pending, frames);
    if c.utterances == [] {
      assert Flatten(c.utterances) == [];
      assert c.rest == pending + Flatten(frames);
    } else {
      assert |Flatten(c.utterances)| >= |c.utterances[0]|;
    }
  }

  /** Frame `k` is the first to bring the buffer to the threshold: the first
      utterance is the pending bytes and frames `0..k`, and the chunker then
      starts again from an empty buffer at frame `k + 1`. */
  predicate FiresFirstAt(pending: Bytes, frames: seq<Bytes>, k: nat)
    requires k < |frames|
  {
    && |pending + Flatten(frames[..k])| < Threshold
    && |pending + Flatten(frames[..k + 1])| >= Threshold
    && Chunk(pending, frames) == Chunking(
         [pending + Flatten(frames[..k + 1])] + Chunk([], frames[k + 1..]).utterances,
         Chunk([], frames[k + 1..]).rest)
  }

  /** When the chunker fires, its first utterance is exactly the pending
      bytes plus the frames up to the first one that reaches the threshold;
      the buffer is then empty and the remaining frames start afresh. */
  lemma {:induction false} ChunkFirstUtterance(pending: Bytes, frames: seq<Bytes>)
    requires |pending| < Threshold
    requires Chunk(pending, frames).utterances != []
    ensures exists k :: 0 <= k < |frames| && FiresFirstAt(pending, frames, k)
    decreases |frames|
  {
    if |pending + frames[0]| >= Threshold {
      FiresAtFirstFrame(pending, frames);
    } else {
      ChunkFirstUtterance(pending + frames[0], frames[1..]);
      var k :| 0 <= k < |frames[1..]| && FiresFirstAt(pending + frames[0], frames[1..], k);
      FiresLater(pending, frames, k);
    }
  }

  lemma FiresAtFirstFrame(pending: Bytes, frames: seq<Bytes>)
    requires |pending| < Threshold && frames != [] && |pending + frames[0]| >= Threshold
    ensures FiresFirstAt(pending, frames, 0)
  {
    assert frames[..0] == [] && frames[..1] == [frames[0]];
    assert Flatten(frames[..1]) == frames[0] by {
      assert frames[..1][1..] == [];
    }
    assert pending + [] == pending;
  }

  lemma FiresLater(pending: Bytes, frames: seq<Bytes>, k: nat)
    requires frames != [] && |pending + frames[0]| < Threshold
    requires k < |frames[1..]| && FiresFirstAt(pending + frames[0], frames[1..], k)
    ensures FiresFirstAt(pending, frames, k + 1)
  {
    FlattenPrefixCons(pending, frames, k);
    FlattenPrefixCons(pending, frames, k + 1);
    assert frames[1..][k + 1..] == frames[k + 2..];
  }

  lemma FlattenPrefixCons(pending: Bytes, frames: seq<Bytes>, j: nat)
    requires j < |frames|
    ensures pending + Flatten(frames[..j + 1]) == (pending + frames[0]) + Flatten(frames[1..][..j])
  {
    assert frames[..j + 1][1..] == frames[1..][..j];
  }

  /** The per-connection `buffer` of `conversation_socket`. */
  class UtteranceBuffer {
    var buffer: Bytes

    /** `buffer = b""`. */
    constructor ()
      ensures buffer == []
    {
      buffer := [];
    }

    /** `buffer += data` followed by the threshold test: at or above the
        threshold the whole buffer is handed out and the buffer becomes
        empty; below it nothing is handed out and the chunk stays buffered. */
    method Append(chunk: Bytes) returns (u: Option<Bytes>)
      modifies this
      ensures u.Some? <==> |old(buffer) + chunk| >= Threshold
      ensures u.Some? ==> u.value == old(buffer) + chunk && buffer == []
      ensures u.None? ==> buffer == old(buffer) + chunk
      ensures buffer + (if u.Some? then u.value else []) == old(buffer) + chunk
      ensures Chunk(old(buffer), [chunk]) == Chunking(if u.Some? then [u.value] else [], buffer)
    {
      buffer := buffer + chunk;
      if |buffer| >= Threshold {
        u := Some(buffer);
        buffer := [];
      } else {
        u := None;
      }
    }
  }
}
