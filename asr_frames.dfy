/** The sending half of the recognition stream (send_audio): the byte chunks
    from the relay queue are re-cut into frames of exactly 1280 bytes (40 ms
    of 16 kHz, 16-bit mono audio), the remainder is flushed as one shorter
    frame, and the end marker `{"end": true}` closes the stream. */
module AsrFrames {
  import opened Common

  const FrameSize: nat := 1280

  /** The bytes of `{"end": true}`. */
  const EndMarker: seq<byte> := [123, 34, 101, 110, 100, 34, 58, 32, 116, 114, 117, 101, 125]

  /** The whole frames of a byte stream, in order. */
  function Frames(d: seq<byte>): (r: seq<seq<byte>>)
    ensures |r| == |d| / FrameSize
    ensures forall i :: 0 <= i < |r| ==> |r[i]| == FrameSize
    decreases |d|
  {
    if |d| < FrameSize then [] else [d[..FrameSize]] + Frames(d[FrameSize..])
  }

  /** What is left in the buffer after the whole frames are cut off. */
  function Tail(d: seq<byte>): (r: seq<byte>)
    ensures |r| == |d| % FrameSize
  {
    d[FrameSize * (|d| / FrameSize)..]
  }

  /** Everything send_audio puts on the socket for a finished chunk stream. */
  function Outgoing(chunks: seq<seq<byte>>): seq<seq<byte>>
  {
    var d := Flatten(chunks);
    Frames(d) + (if Tail(d) == [] then [] else [Tail(d)]) + [EndMarker]
  }

  /** The frames and the tail put back together give the stream. */
  lemma {:induction false} Reassemble(d: seq<byte>)
    ensures Flatten(Frames(d)) + Tail(d) == d
    decreases |d|
  {
    if |d| >= FrameSize {
      var rest := d[FrameSize..];
      Reassemble(rest);
      assert Frames(d) == [d[..FrameSize]] + Frames(rest);
      assert Tail(d) == Tail(rest) by {
        assert (|d| / FrameSize) == 1 + |rest| / FrameSize;
      }
      assert d == d[..FrameSize] + rest;
    }
  }

  /** A stream made of whole frames followed by a short remainder is cut into
      exactly those frames, with exactly that remainder. */
  lemma {:induction false} FramesOfAligned(fs: seq<seq<byte>>, b: seq<byte>)
    requires forall i :: 0 <= i < |fs| ==> |fs[i]| == FrameSize
    requires |b| < FrameSize
    ensures Frames(Flatten(fs) + b) == fs
    ensures Tail(Flatten(fs) + b) == b
    ensures |Flatten(fs)| == FrameSize * |fs|
  {
    if fs != [] {
      FramesOfAligned(fs[1..], b);
      var d := Flatten(fs) + b;
      var rest := Flatten(fs[1..]) + b;
      assert d == fs[0] + rest;
      assert d[..FrameSize] == fs[0] && d[FrameSize..] == rest;
      assert |d| / FrameSize == 1 + |rest| / FrameSize;
    } else {
      assert Flatten(fs) + b == b;
    }
  }

  /** Every message but the last is audio: whole 1280-byte frames, then at
      most one shorter, non-empty remainder; the last message is the end
      marker; and the audio messages concatenate to exactly the input stream. */
  lemma OutgoingSpec(chunks: seq<seq<byte>>)
    ensures var out := Outgoing(chunks);
            var d := Flatten(chunks);
            && |out| >= 1 && out[|out| - 1] == EndMarker
            && Flatten(out[..|out| - 1]) == d
            && (forall i :: 0 <= i < |out| - 2 ==> |out[i]| == FrameSize)
            && (|out| >= 2 ==> 0 < |out[|out| - 2]| <= FrameSize)
  {
    var d := Flatten(chunks);
    var out := Outgoing(chunks);
    var fs := Frames(d);
    var tl := if Tail(d) == [] then [] else [Tail(d)];
    assert out[..|out| - 1] == fs + tl;
    Reassemble(d);
    FlattenAppend(fs, tl);
    if Tail(d) == [] {
      assert Flatten(tl) == [];
    } else {
      assert Flatten(tl) == Tail(d) + Flatten(tl[1..]);
    }
  }

  /** send_audio's loop (the flow-control pause and send failures left out):
      empty chunks are skipped, each chunk is appended to the buffer, and
      whole frames are cut off the front of the buffer as soon as it holds
      one. `bytesSent` counts the frame bytes the flow control paces. */
  method SendAudio(chunks: seq<seq<byte>>) returns (sent: seq<seq<byte>>, bytesSent: nat)
    ensures sent == Outgoing(chunks)
    ensures bytesSent == FrameSize * (|Flatten(chunks)| / FrameSize)
  {
    var buffer: seq<byte> := [];
    sent := [];
    bytesSent := 0;
    for k := 0 to |chunks|
      invariant Flatten(chunks[..k]) == Flatten(sent) + buffer
      invariant forall i :: 0 <= i < |sent| ==> |sent[i]| == FrameSize
      invariant |buffer| < FrameSize
      invariant bytesSent == FrameSize * |sent|
    {
      assert chunks[..k + 1] == chunks[..k] + [chunks[k]];
      FlattenSnoc(chunks[..k], chunks[k]);
      if chunks[k] == [] {
        continue;
      }
      buffer := buffer + chunks[k];
      while |buffer| >= FrameSize
        invariant Flatten(chunks[..k + 1]) == Flatten(sent) + buffer
        invariant forall i :: 0 <= i < |sent| ==> |sent[i]| == FrameSize
        invariant bytesSent == FrameSize * |sent|
        decreases |buffer|
      {
        var frame := buffer[..FrameSize];
        FlattenSnoc(sent, frame);
        assert buffer == frame + buffer[FrameSize..];
        buffer := buffer[FrameSize..];
        sent := sent + [frame];
        bytesSent := bytesSent + |frame|;
      }
    }
    assert chunks[..|chunks|] == chunks;
    FramesOfAligned(sent, buffer);
    if |buffer| > 0 {
      sent := sent + [buffer];
    }
    sent := sent + [EndMarker];
  }
}
