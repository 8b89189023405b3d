/** `RKOpusEncoder::encode`: samples are cut into frames across calls, and packets are length-prefixed. */
module OpusFraming {
  import opened Wire
  import opened StreamSpec

  type Frame = seq<int>

  /** The codec: deterministic in the frames it was given before and the frame; `None` is an error. */
  type Codec = (seq<Frame>, Frame) -> Option<Bytes>

  const OPUS_BUFFER_SIZE: nat := 16 * 1024

  // ---------------------------------------------------------------- frames and packets

  function Frames(s: seq<int>, n: nat): seq<Frame>
    requires n > 0
    decreases |s|
  {
    if |s| < n then [] else [s[..n]] + Frames(s[n..], n)
  }

  function Left(s: seq<int>, n: nat): (r: seq<int>)
    requires n > 0
    ensures |r| < n
    decreases |s|
  {
    if |s| < n then s else Left(s[n..], n)
  }

  /** One length byte, then the packet. The length is cut to a byte. */
  function Packet(p: Bytes): Bytes {
    [|p| % 256] + p
  }

  /** What encoding frames into the rest of a buffer gives: packets, and how many frames the codec was given. */
  datatype Outcome = Outcome(ok: bool, bytes: Bytes, given: nat)

  /** A packet needs its length byte, and the codec at least one byte of room. */
  predicate Fits(p: Option<Bytes>, room: int) {
    p.Some? && room >= 2 && |p.value| <= room - 1
  }

  function EncodeAll(codec: Codec, fed: seq<Frame>, frames: seq<Frame>, room: int): (o: Outcome)
    ensures o.given <= |frames|
    decreases |frames|
  {
    if frames == [] then Outcome(true, [], 0)
    else
      var p := codec(fed, frames[0]);
      if !Fits(p, room) then Outcome(false, [], 1)
      else
        var o := EncodeAll(codec, fed + [frames[0]], frames[1..], room - 1 - |p.value|);
        Outcome(o.ok, Packet(p.value) + o.bytes, o.given + 1)
  }

  /** Splitting off the first frames splits the outcome. */
  function After(bytes: Bytes, given: nat, o: Outcome): Outcome {
    Outcome(o.ok, bytes + o.bytes, given + o.given)
  }

  // ---------------------------------------------------------------- the encoder

  class RKOpusEncoder {
    const codec: Codec
    const frameSize: nat
    const aPcmFrame: array<int>
    const opusBuffer: array<byte>
    /** How many samples wait in `aPcmFrame`. */
    var used: nat
    /** The frames the codec was given; its state. */
    var fed: seq<Frame>

    ghost predicate Valid()
      reads this
    {
      && frameSize > 0 && aPcmFrame.Length == frameSize && opusBuffer.Length == OPUS_BUFFER_SIZE
      && used < frameSize
    }

    ghost function Saved(): seq<int>
      reads this, aPcmFrame
      requires Valid()
    {
      aPcmFrame[..used]
    }

    /** `init` */
    constructor (codec: Codec, frameSize: nat)
      requires frameSize > 0
      ensures Valid() && fresh(aPcmFrame) && fresh(opusBuffer)
      ensures this.codec == codec && this.frameSize == frameSize && Saved() == [] && fed == []
    {
      this.codec, this.frameSize := codec, frameSize;
      aPcmFrame := new int[frameSize];
      opusBuffer := new byte[OPUS_BUFFER_SIZE];
      used, fed := 0, [];
    }

    /** `opus_encode` into the buffer behind the length byte; negative on an error. */
    method OpusEncode(frame: Frame, at: nat, room: int) returns (c: int)
      requires Valid() && at <= OPUS_BUFFER_SIZE && room == OPUS_BUFFER_SIZE - at
      modifies this`fed, opusBuffer
      ensures fed == old(fed) + [frame] && opusBuffer[..at] == old(opusBuffer[..at])
      ensures var p := codec(old(fed), frame);
        if Fits(p, room + 1) then
          c == |p.value| && at + c <= OPUS_BUFFER_SIZE
          && opusBuffer[at..at + c] == p.value
        else c < 0
    {
      var p := codec(fed, frame);
      fed := fed + [frame];
      if p.None? || room < 1 || |p.value| > room {
        return -1;
      }
      forall i | 0 <= i < |p.value| {
        opusBuffer[at + i] := p.value[i];
      }
      return |p.value|;
    }

    /** One frame to one packet at the end of what the buffer holds. */
    method EncodeFrame(frame: Frame, encSize: nat) returns (ok: bool, size: nat)
      requires Valid() && encSize <= OPUS_BUFFER_SIZE
      modifies this`fed, opusBuffer
      ensures fed == old(fed) + [frame] && opusBuffer[..encSize] == old(opusBuffer[..encSize])
      ensures var p := codec(old(fed), frame);
        && ok == Fits(p, OPUS_BUFFER_SIZE - encSize)
        && size == (if ok then encSize + 1 + |p.value| else encSize) <= OPUS_BUFFER_SIZE
        && (ok ==> opusBuffer[..size] == old(opusBuffer[..encSize]) + Packet(p.value))
    {
      size := encSize;
      if encSize + 1 > OPUS_BUFFER_SIZE {
        fed := fed + [frame];
        return false, size;
      }
      var c := OpusEncode(frame, encSize + 1, OPUS_BUFFER_SIZE - encSize - 1);
      if c < 0 {
        return false, size;
      }
      ghost var packet, before := opusBuffer[encSize + 1..encSize + 1 + c], opusBuffer[..encSize];
      assert before == opusBuffer[..encSize + 1][..encSize] == old(opusBuffer[..encSize + 1])[..encSize];
      opusBuffer[encSize] := c % 256;
      size := encSize + c + 1;
      assert opusBuffer[..size] == opusBuffer[..encSize] + [opusBuffer[encSize]] + opusBuffer[encSize + 1..size];
      assert opusBuffer[encSize + 1..size] == packet;
      return true, size;
    }

    /** The frames that are whole in `pcm`, one packet each. */
    method EncodeFrames(pcm: seq<int>, encSize: nat) returns (ok: bool, size: nat, rest: seq<int>)
      requires Valid() && encSize <= OPUS_BUFFER_SIZE
      modifies this`fed, opusBuffer
      ensures size <= OPUS_BUFFER_SIZE
      ensures var frames := Frames(pcm, frameSize);
        var o := EncodeAll(codec, old(fed), frames, OPUS_BUFFER_SIZE - encSize);
        && ok == o.ok && fed == old(fed) + frames[..o.given]
        && opusBuffer[..size] == old(opusBuffer[..encSize]) + o.bytes
      ensures ok ==> rest == Left(pcm, frameSize)
    {
      hide Frames, Left, EncodeAll, Packet;
      ghost var o := EncodeAll(codec, fed, Frames(pcm, frameSize), OPUS_BUFFER_SIZE - encSize);
      ghost var gone: seq<Frame>, bytes: Bytes := [], [];
      size, rest := encSize, pcm;
      while |rest| >= frameSize
        invariant size <= OPUS_BUFFER_SIZE
        invariant fed == old(fed) + gone && opusBuffer[..size] == old(opusBuffer[..encSize]) + bytes
        invariant Frames(pcm, frameSize) == gone + Frames(rest, frameSize)
        invariant Left(rest, frameSize) == Left(pcm, frameSize)
        invariant o == After(bytes, |gone|, EncodeAll(codec, fed, Frames(rest, frameSize), OPUS_BUFFER_SIZE - size))
        decreases |rest|
      {
        var frame := rest[..frameSize];
        ghost var p := codec(fed, frame);
        FramesStep(rest, frameSize);
        EncodeStep(codec, fed, frame, Frames(rest[frameSize..], frameSize), OPUS_BUFFER_SIZE - size, bytes, |gone|);
        ok, size := EncodeFrame(frame, size);
        assert old(fed) + gone + [frame] == old(fed) + (gone + [frame]);
        assert gone + ([frame] + Frames(rest[frameSize..], frameSize)) ==
               gone + [frame] + Frames(rest[frameSize..], frameSize);
        gone := gone + [frame];
        if !ok {
          return;
        }
        assert old(opusBuffer[..encSize]) + bytes + Packet(p.value) ==
               old(opusBuffer[..encSize]) + (bytes + Packet(p.value));
        bytes := bytes + Packet(p.value);
        rest := rest[frameSize..];
      }
      FramesStep(rest, frameSize);
      NothingToEncode(codec, fed, OPUS_BUFFER_SIZE - size, bytes, |gone|);
      return true, size, rest;
    }

    /** `memcpy` behind the saved samples. */
    method Save(pcm: seq<int>)
      requires Valid() && used + |pcm| <= frameSize
      modifies aPcmFrame
      ensures aPcmFrame[..used + |pcm|] == old(aPcmFrame[..used]) + pcm
    {
      forall i | 0 <= i < |pcm| {
        aPcmFrame[used + i] := pcm[i];
      }
    }

    /** The frame that the saved samples begin. */
    method EncodeSaved(pcm: seq<int>) returns (ok: bool, encSize: nat)
      requires Valid() && used > 0 && used + |pcm| == frameSize
      modifies this, aPcmFrame, opusBuffer
      ensures Valid() && encSize <= OPUS_BUFFER_SIZE
      ensures var frame := old(Saved()) + pcm;
        var p := codec(old(fed), frame);
        && ok == Fits(p, OPUS_BUFFER_SIZE) && fed == old(fed) + [frame]
        && opusBuffer[..encSize] == (if ok then Packet(p.value) else [])
        && Saved() == if ok then [] else old(Saved())
    {
      ghost var saved := Saved();
      Save(pcm);
      assert aPcmFrame[..] == saved + pcm && aPcmFrame[..used] == saved;
      ok, encSize := EncodeFrame(aPcmFrame[..], 0);
      if ok {
        used := 0;
      }
    }

    /** With nothing saved: the whole frames, and what is left is saved. */
    method EncodeRest(pcm: seq<int>, encSize: nat) returns (ok: bool, size: nat)
      requires Valid() && used == 0 && encSize <= OPUS_BUFFER_SIZE
      modifies this, aPcmFrame, opusBuffer
      ensures Valid() && size <= OPUS_BUFFER_SIZE
      ensures var frames := Frames(pcm, frameSize);
        var o := EncodeAll(codec, old(fed), frames, OPUS_BUFFER_SIZE - encSize);
        && ok == o.ok && fed == old(fed) + frames[..o.given]
        && opusBuffer[..size] == old(opusBuffer[..encSize]) + o.bytes
        && Saved() == if ok then Left(pcm, frameSize) else []
    {
      hide Frames, Left, EncodeAll, Packet;
      var rest;
      ok, size, rest := EncodeFrames(pcm, encSize);
      if ok {
        Save(rest);
        used := |rest|;
        assert Saved() == rest;
      }
    }

    /** With samples saved, and enough to fill their frame. */
    method EncodeJoined(pcm: seq<int>) returns (ok: bool, encSize: nat)
      requires Valid() && 0 < used && used + |pcm| >= frameSize
      modifies this, aPcmFrame, opusBuffer
      ensures Valid() && encSize <= OPUS_BUFFER_SIZE
      ensures var input := old(Saved()) + pcm;
        var frames := Frames(input, frameSize);
        var o := EncodeAll(codec, old(fed), frames, OPUS_BUFFER_SIZE);
        && ok == o.ok && fed == old(fed) + frames[..o.given] && opusBuffer[..encSize] == o.bytes
        && Saved() == if ok then Left(input, frameSize) else if o.given == 1 then old(Saved()) else []
    {
      hide Frames, Left, EncodeAll, Packet, After, Fits;
      var need := frameSize - used;
      JoinedOutcome(codec, fed, Saved(), pcm, frameSize);
      ok, encSize := EncodeSaved(pcm[..need]);
      if ok {
        ok, encSize := EncodeRest(pcm[need..], encSize);
      }
    }

    /**
     * `encode`: the saved samples and the new ones are cut into frames; what is left is saved. When the codec fails
     * the packets of this call are lost. No buffer is returned then, nor when all samples were just added to others.
     */
    method Encode(pcm: seq<int>) returns (buf: bool, encSize: nat)
      requires Valid()
      modifies this, aPcmFrame, opusBuffer
      ensures Valid() && encSize <= OPUS_BUFFER_SIZE
      ensures var input := old(Saved()) + pcm;
        var frames := Frames(input, frameSize);
        var o := EncodeAll(codec, old(fed), frames, OPUS_BUFFER_SIZE);
        && fed == old(fed) + frames[..o.given] && opusBuffer[..encSize] == o.bytes
        && Saved() == (if o.ok then Left(input, frameSize) else if o.given == 1 then old(Saved()) else [])
        && (buf <==> pcm != [] && o.ok && (old(Saved()) == [] || |input| >= frameSize))
    {
      hide Frames, Left, EncodeAll, Packet;
      ghost var saved := Saved();
      FramesStep(saved + pcm, frameSize);
      NoFrames(codec, fed, OPUS_BUFFER_SIZE);
      if pcm == [] {
        return false, 0;
      }
      if used > 0 {
        if frameSize - used > |pcm| {
          Save(pcm);
          used := used + |pcm|;
          return false, 0;
        }
        buf, encSize := EncodeJoined(pcm);
      } else {
        assert saved + pcm == pcm;
        buf, encSize := EncodeRest(pcm, 0);
      }
    }
  }

  /** The outcome when the saved samples begin the first frame. */
  lemma JoinedOutcome(codec: Codec, fed: seq<Frame>, saved: seq<int>, pcm: seq<int>, n: nat)
    requires n > 0 && |saved| < n <= |saved| + |pcm|
    ensures Left(saved + pcm, n) == Left(pcm[n - |saved|..], n)
    ensures var frame, rest, all := saved + pcm[..n - |saved|], Frames(pcm[n - |saved|..], n), Frames(saved + pcm, n);
      var p, o := codec(fed, frame), EncodeAll(codec, fed, all, OPUS_BUFFER_SIZE);
      if Fits(p, OPUS_BUFFER_SIZE) then
        var o' := EncodeAll(codec, fed + [frame], rest, OPUS_BUFFER_SIZE - |Packet(p.value)|);
        && o.ok == o'.ok && o.bytes == Packet(p.value) + o'.bytes
        && fed + all[..o.given] == fed + [frame] + rest[..o'.given]
        && (!o'.ok ==> o.given >= 2)
      else
        !o.ok && o.bytes == [] && o.given == 1 && fed + all[..o.given] == fed + [frame]
  {
    hide Frames, Left, EncodeAll;
    var frame, rest := saved + pcm[..n - |saved|], Frames(pcm[n - |saved|..], n);
    JoinedFrame(saved, pcm, n);
    FirstStep(codec, fed, frame, rest, OPUS_BUFFER_SIZE);
    var p := codec(fed, frame);
    if Fits(p, OPUS_BUFFER_SIZE) {
      var room := OPUS_BUFFER_SIZE - 1 - |p.value|;
      GivenSome(codec, fed + [frame], rest, room);
      var k := EncodeAll(codec, fed + [frame], rest, room).given;
      assert ([frame] + rest)[..1 + k] == [frame] + rest[..k];
      assert fed + ([frame] + rest[..k]) == fed + [frame] + rest[..k];
    } else {
      assert ([frame] + rest)[..1] == [frame];
    }
  }

  lemma NoFrames(codec: Codec, fed: seq<Frame>, room: int)
    ensures EncodeAll(codec, fed, [], room) == Outcome(true, [], 0)
  {
  }

  lemma FirstStep(codec: Codec, fed: seq<Frame>, frame: Frame, frames: seq<Frame>, room: int)
    ensures var p := codec(fed, frame);
      EncodeAll(codec, fed, [frame] + frames, room) ==
        if Fits(p, room) then After(Packet(p.value), 1, EncodeAll(codec, fed + [frame], frames, room - 1 - |p.value|))
        else Outcome(false, [], 1)
  {
    assert ([frame] + frames)[1..] == frames;
  }

  lemma GivenSome(codec: Codec, fed: seq<Frame>, frames: seq<Frame>, room: int)
    ensures var o := EncodeAll(codec, fed, frames, room); !o.ok ==> o.given >= 1
  {
  }

  lemma JoinedFrame(saved: seq<int>, pcm: seq<int>, n: nat)
    requires n > 0 && |saved| < n <= |saved| + |pcm|
    ensures var need := n - |saved|;
      && Frames(saved + pcm, n) == [saved + pcm[..need]] + Frames(pcm[need..], n)
      && Left(saved + pcm, n) == Left(pcm[need..], n)
  {
    var need := n - |saved|;
    FramesStep(saved + pcm, n);
    assert (saved + pcm)[..n] == saved + pcm[..need] && (saved + pcm)[n..] == pcm[need..];
  }

  lemma FramesStep(s: seq<int>, n: nat)
    requires n > 0
    ensures if |s| < n then Frames(s, n) == [] && Left(s, n) == s
      else Frames(s, n) == [s[..n]] + Frames(s[n..], n) && Left(s, n) == Left(s[n..], n)
  {
  }

  lemma EncodeStep(codec: Codec, fed: seq<Frame>, frame: Frame, frames: seq<Frame>, room: int, bytes: Bytes, k: nat)
    ensures var p := codec(fed, frame);
      After(bytes, k, EncodeAll(codec, fed, [frame] + frames, room)) ==
        if Fits(p, room) then
          After(bytes + Packet(p.value), k + 1, EncodeAll(codec, fed + [frame], frames, room - 1 - |p.value|))
        else Outcome(false, bytes, k + 1)
  {
    var p := codec(fed, frame);
    assert ([frame] + frames)[1..] == frames;
    if Fits(p, room) {
      OneMore(bytes, k, Packet(p.value), EncodeAll(codec, fed + [frame], frames, room - 1 - |p.value|));
    }
  }

  lemma NothingToEncode(codec: Codec, fed: seq<Frame>, room: int, bytes: Bytes, k: nat)
    ensures After(bytes, k, EncodeAll(codec, fed, [], room)) == Outcome(true, bytes, k)
  {
  }

  lemma OneMore(bytes: Bytes, k: nat, packet: Bytes, rest: Outcome)
    ensures After(bytes, k, Outcome(rest.ok, packet + rest.bytes, rest.given + 1)) == After(bytes + packet, k + 1, rest)
  {
    assert bytes + (packet + rest.bytes) == bytes + packet + rest.bytes;
  }

  // ---------------------------------------------------------------- independence of chunking

  /** A codec that always gives a packet of 1 to 255 bytes. */
  ghost predicate Good(codec: Codec) {
    forall fed: seq<Frame>, frame: Frame :: codec(fed, frame).Some? && 1 <= |codec(fed, frame).value| <= 255
  }

  /** All packets of a run of frames. */
  function Packets(codec: Codec, fed: seq<Frame>, frames: seq<Frame>): seq<Bytes>
    decreases |frames|
  {
    if frames == [] then []
    else
      (if codec(fed, frames[0]).Some? then [codec(fed, frames[0]).value] else [])
      + Packets(codec, fed + [frames[0]], frames[1..])
  }

  function Packed(ps: seq<Bytes>): Bytes {
    if ps == [] then [] else Packet(ps[0]) + Packed(ps[1..])
  }

  /** What several calls leave behind: saved samples, frames given to the codec, all bytes returned. */
  datatype Session = Session(saved: seq<int>, fed: seq<Frame>, out: Bytes)

  /** One call of `encode`, as its contract says, when the codec does not fail. */
  function Feed(codec: Codec, n: nat, s: Session, pcm: seq<int>): Session
    requires n > 0
  {
    var frames := Frames(s.saved + pcm, n);
    Session(Left(s.saved + pcm, n), s.fed + frames, s.out + EncodeAll(codec, s.fed, frames, OPUS_BUFFER_SIZE).bytes)
  }

  function FeedAll(codec: Codec, n: nat, chunks: seq<seq<int>>): Session
    requires n > 0
  {
    if chunks == [] then Session([], [], [])
    else Feed(codec, n, FeedAll(codec, n, chunks[..|chunks| - 1]), chunks[|chunks| - 1])
  }

  /** No call fills the buffer. */
  ghost predicate AllFit(codec: Codec, n: nat, chunks: seq<seq<int>>)
    requires n > 0
  {
    forall i | 0 <= i < |chunks| ::
      var s := FeedAll(codec, n, chunks[..i]);
      EncodeAll(codec, s.fed, Frames(s.saved + chunks[i], n), OPUS_BUFFER_SIZE).ok
  }

  /** A new encoder, called with each chunk in turn; the caller keeps the bytes of each call. */
  method EncodeChunks(codec: Codec, n: nat, chunks: seq<seq<int>>) returns (encoder: RKOpusEncoder, out: Bytes)
    requires n > 0 && AllFit(codec, n, chunks)
    ensures fresh(encoder) && encoder.Valid()
    ensures Session(encoder.Saved(), encoder.fed, out) == FeedAll(codec, n, chunks)
  {
    hide Frames, Left, EncodeAll;
    encoder := new RKOpusEncoder(codec, n);
    out := [];
    var i := 0;
    while i < |chunks|
      invariant i <= |chunks|
      invariant fresh(encoder) && fresh(encoder.aPcmFrame) && fresh(encoder.opusBuffer)
      invariant encoder.Valid() && encoder.codec == codec && encoder.frameSize == n
      invariant Session(encoder.Saved(), encoder.fed, out) == FeedAll(codec, n, chunks[..i])
    {
      FeedNext(codec, n, chunks, i);
      ghost var frames := Frames(encoder.Saved() + chunks[i], n);
      AllGiven(codec, encoder.fed, frames, OPUS_BUFFER_SIZE);
      var buf, size := encoder.Encode(chunks[i]);
      out := out + encoder.opusBuffer[..size];
      i := i + 1;
    }
    assert chunks[..|chunks|] == chunks;
  }

  lemma FeedNext(codec: Codec, n: nat, chunks: seq<seq<int>>, i: nat)
    requires n > 0 && i < |chunks|
    ensures FeedAll(codec, n, chunks[..i + 1]) == Feed(codec, n, FeedAll(codec, n, chunks[..i]), chunks[i])
  {
    assert chunks[..i + 1][..i] == chunks[..i];
  }

  /** Without a failure the codec is given every frame. */
  lemma {:induction false} AllGiven(codec: Codec, fed: seq<Frame>, frames: seq<Frame>, room: int)
    ensures var o := EncodeAll(codec, fed, frames, room); o.ok ==> o.given == |frames| && frames[..o.given] == frames
    decreases |frames|
  {
    if frames != [] && Fits(codec(fed, frames[0]), room) {
      AllGiven(codec, fed + [frames[0]], frames[1..], room - 1 - |codec(fed, frames[0]).value|);
    }
  }

  lemma {:induction false} PacketsOfOutcome(codec: Codec, fed: seq<Frame>, frames: seq<Frame>, room: int)
    requires EncodeAll(codec, fed, frames, room).ok
    ensures EncodeAll(codec, fed, frames, room).bytes == Packed(Packets(codec, fed, frames))
    decreases |frames|
  {
    if frames != [] {
      var p := codec(fed, frames[0]);
      PacketsOfOutcome(codec, fed + [frames[0]], frames[1..], room - 1 - |p.value|);
      var rest := Packets(codec, fed + [frames[0]], frames[1..]);
      assert ([p.value] + rest)[1..] == rest;
    }
  }

  lemma {:induction false} PackedConcat(a: seq<Bytes>, b: seq<Bytes>)
    ensures Packed(a + b) == Packed(a) + Packed(b)
    decreases |a|
  {
    hide Packet;
    if a == [] {
      assert a + b == b;
    } else {
      PackedConcat(a[1..], b);
      assert (a + b)[1..] == a[1..] + b;
    }
  }

  lemma {:induction false} PacketsConcat(codec: Codec, fed: seq<Frame>, a: seq<Frame>, b: seq<Frame>)
    ensures Packets(codec, fed, a + b) == Packets(codec, fed, a) + Packets(codec, fed + a, b)
    decreases |a|
  {
    if a == [] {
      assert a + b == b && fed + a == fed;
    } else {
      PacketsConcat(codec, fed + [a[0]], a[1..], b);
      assert (a + b)[1..] == a[1..] + b && fed + [a[0]] + a[1..] == fed + a;
    }
  }

  /** Cutting what was left together with more is cutting all at once. */
  lemma {:induction false} FramesConcat(s: seq<int>, t: seq<int>, n: nat)
    requires n > 0
    ensures Frames(s + t, n) == Frames(s, n) + Frames(Left(s, n) + t, n)
    ensures Left(s + t, n) == Left(Left(s, n) + t, n)
    decreases |s|
  {
    if |s| >= n {
      FramesConcat(s[n..], t, n);
      FramesStep(s + t, n);
      assert (s + t)[..n] == s[..n] && (s + t)[n..] == s[n..] + t;
    }
  }

  lemma FlatEmpty()
    ensures Flat<int>([]) == []
  {
  }

  /** Nothing is lost: the frames and what is left are the samples. */
  lemma {:induction false} FramesAreSamples(s: seq<int>, n: nat)
    requires n > 0
    ensures Flat(Frames(s, n)) + Left(s, n) == s
    ensures forall i | 0 <= i < |Frames(s, n)| :: |Frames(s, n)[i]| == n
    decreases |s|
  {
    hide Frames, Left, Flat;
    FramesStep(s, n);
    FlatEmpty();
    if |s| >= n {
      FramesAreSamples(s[n..], n);
      FlatFront(s[..n], Frames(s[n..], n));
    }
  }

  /**
   * Chunking does not matter: over any calls the codec gets the frames of all samples together, less than a frame
   * is left, and the output is the length-prefixed packets of those frames.
   */
  lemma {:induction false} ChunkingIrrelevant(codec: Codec, n: nat, chunks: seq<seq<int>>)
    requires n > 0 && AllFit(codec, n, chunks)
    ensures var s, all := FeedAll(codec, n, chunks), Flat(chunks);
      && s.saved == Left(all, n) && |s.saved| < n
      && s.fed == Frames(all, n) && Flat(s.fed) + s.saved == all
      && s.out == Packed(Packets(codec, [], Frames(all, n)))
    decreases |chunks|
  {
    hide Frames, Packets, Packed, EncodeAll, Flat, AllFit, Left;
    FramesAreSamples(Flat(chunks), n);
    if chunks == [] {
      NothingFed(codec, n);
    } else {
      var m := |chunks| - 1;
      var before, pcm := chunks[..m], chunks[m];
      LastFits(codec, n, chunks);
      ChunkingIrrelevant(codec, n, before);
      var s := FeedAll(codec, n, before);
      var frames := Frames(s.saved + pcm, n);
      FlatLast(chunks);
      FramesConcat(Flat(before), pcm, n);
      PacketsOfOutcome(codec, s.fed, frames, OPUS_BUFFER_SIZE);
      PacketsConcat(codec, [], s.fed, frames);
      assert [] + s.fed == s.fed;
      PackedConcat(Packets(codec, [], s.fed), Packets(codec, s.fed, frames));
    }
  }

  lemma NothingFed(codec: Codec, n: nat)
    requires n > 0
    ensures Flat<int>([]) == [] && Frames([], n) == [] && Left([], n) == [] && Packed(Packets(codec, [], [])) == []
  {
  }

  lemma FlatLast<T>(ss: seq<seq<T>>)
    requires ss != []
    ensures Flat(ss) == Flat(ss[..|ss| - 1]) + ss[|ss| - 1]
  {
  }

  lemma LastFits(codec: Codec, n: nat, chunks: seq<seq<int>>)
    requires n > 0 && AllFit(codec, n, chunks) && chunks != []
    ensures AllFit(codec, n, chunks[..|chunks| - 1])
    ensures var s := FeedAll(codec, n, chunks[..|chunks| - 1]);
      EncodeAll(codec, s.fed, Frames(s.saved + chunks[|chunks| - 1], n), OPUS_BUFFER_SIZE).ok
  {
    hide FeedAll, EncodeAll, Frames;
    var m := |chunks| - 1;
    assert forall i | 0 <= i < m :: chunks[..m][..i] == chunks[..i] && chunks[..m][i] == chunks[i];
  }

  lemma {:induction false} FrameCount(s: seq<int>, n: nat, m: nat)
    requires n > 0 && |s| < (m + 1) * n
    ensures |Frames(s, n)| <= m
    decreases m
  {
    if |s| >= n {
      assert (m + 1) * n - n == m * n;
      if m == 0 {
        assert false;
      }
      FrameCount(s[n..], n, m - 1);
    }
  }

  lemma {:induction false} GoodFits(codec: Codec, fed: seq<Frame>, frames: seq<Frame>, room: int)
    requires Good(codec) && 256 * |frames| <= room
    ensures EncodeAll(codec, fed, frames, room).ok
    decreases |frames|
  {
    if frames != [] {
      var p := codec(fed, frames[0]);
      GoodFits(codec, fed + [frames[0]], frames[1..], room - 1 - |p.value|);
    }
  }

  /** Calls with at most 64 frames of samples always fit, whatever was saved. */
  lemma SmallCallsFit(codec: Codec, n: nat, chunks: seq<seq<int>>)
    requires n > 0 && Good(codec) && forall i | 0 <= i < |chunks| :: |chunks[i]| <= 64 * n
    ensures AllFit(codec, n, chunks)
  {
    hide Frames, EncodeAll, Good;
    forall i | 0 <= i < |chunks|
      ensures var s := FeedAll(codec, n, chunks[..i]);
        EncodeAll(codec, s.fed, Frames(s.saved + chunks[i], n), OPUS_BUFFER_SIZE).ok
    {
      var s := FeedAll(codec, n, chunks[..i]);
      FrameCount(s.saved + chunks[i], n, 64);
      GoodFits(codec, s.fed, Frames(s.saved + chunks[i], n), OPUS_BUFFER_SIZE);
    }
  }

  /** With packets of 255 bytes the buffer of 16 KiB holds 64 of them and no more. */
  lemma {:induction false} LargeCallsOverflow(codec: Codec, fed: seq<Frame>, frames: seq<Frame>, used: nat)
    requires used <= 64 && |frames| > 64 - used
    requires forall fed: seq<Frame>, frame: Frame :: codec(fed, frame).Some? && |codec(fed, frame).value| == 255
    ensures !EncodeAll(codec, fed, frames, OPUS_BUFFER_SIZE - 256 * used).ok
    decreases |frames|
  {
    if used < 64 { LargeCallsOverflow(codec, fed + [frames[0]], frames[1..], used + 1); }
  }

  // ---------------------------------------------------------------- reading the packets back

  /** Reads length-prefixed packets until the input ends. */
  function Unpacked(bs: Bytes): Option<seq<Bytes>>
    decreases |bs|
  {
    if bs == [] then Some([])
    else if |bs| - 1 < bs[0] then None
    else
      match Unpacked(bs[1 + bs[0] as int..])
      case None => None
      case Some(ps) => Some([bs[1..1 + bs[0] as int]] + ps)
  }

  /** Packets of at most 255 bytes read back as they were, so the output parses in one way only. */
  lemma {:induction false} PackedReadsBack(ps: seq<Bytes>)
    requires forall i | 0 <= i < |ps| :: |ps[i]| <= 255
    ensures Unpacked(Packed(ps)) == Some(ps)
    decreases |ps|
  {
    if ps != [] {
      PackedReadsBack(ps[1..]);
      var bs := Packed(ps);
      assert bs == [|ps[0]|] + ps[0] + Packed(ps[1..]);
      assert bs[1 + |ps[0]|..] == Packed(ps[1..]) && bs[1..1 + |ps[0]|] == ps[0];
      assert [ps[0]] + ps[1..] == ps;
    }
  }

  lemma {:induction false} GoodPackets(codec: Codec, fed: seq<Frame>, frames: seq<Frame>)
    requires Good(codec)
    ensures |Packets(codec, fed, frames)| == |frames|
    ensures forall i | 0 <= i < |frames| :: 1 <= |Packets(codec, fed, frames)[i]| <= 255
    decreases |frames|
  {
    if frames != [] { GoodPackets(codec, fed + [frames[0]], frames[1..]); }
  }

  /** What a receiver reads from any chunking: one packet per frame of all samples. */
  lemma OutputReadsBack(codec: Codec, n: nat, chunks: seq<seq<int>>)
    requires n > 0 && AllFit(codec, n, chunks) && Good(codec)
    ensures Unpacked(FeedAll(codec, n, chunks).out) == Some(Packets(codec, [], Frames(Flat(chunks), n)))
    ensures |Packets(codec, [], Frames(Flat(chunks), n))| == |Frames(Flat(chunks), n)|
  {
    hide Frames, FeedAll, Good, AllFit, Packets, Packed, Unpacked;
    ChunkingIrrelevant(codec, n, chunks);
    GoodPackets(codec, [], Frames(Flat(chunks), n));
    PackedReadsBack(Packets(codec, [], Frames(Flat(chunks), n)));
  }
}
