/** The chat page's voice-input controller: the flags and refs it keeps
    (isConnecting, isRecording, baseTextRef, wsRef, streamRef,
    processorRef, audioContextRef), one method per event that changes
    them, and the browser WebSocket as far as the controller observes it. */
module VoiceInput {
  import opened Common
  import Pcm

  /** WebSocket.readyState. */
  datatype ReadyState = Connecting | Open | Closing | Closed

  /** What the page sends on the socket: PCM buffers and the text sentinel. */
  datatype Outbound = Binary(data: seq<byte>) | Text(text: string)

  const StopSentinel: string := "STOP"

  /** An inbound message after JSON.parse; `None` stands for an absent field. */
  datatype Update = Update(text: Option<string>, error: Option<string>)

  /** JavaScript truthiness of an optional string field. */
  predicate Truthy(f: Option<string>)
  {
    f.Some? && f.value != ""
  }

  predicate StopSent(log: seq<Outbound>)
  {
    Text(StopSentinel) in log
  }

  /** Two-phase shutdown on the wire: no audio frame follows the sentinel. */
  ghost predicate NoFrameAfterStop(log: seq<Outbound>)
  {
    forall i, j :: 0 <= i < j < |log| && log[i] == Text(StopSentinel) ==> !log[j].Binary?
  }

  /** A browser WebSocket: its readyState, and everything sent on it so far. */
  class Socket {
    var readyState: ReadyState
    var sent: seq<Outbound>

    /** Nothing can be sent before the socket opens, and the page never sends
        audio after the sentinel. */
    ghost predicate Valid()
      reads this
    {
      (readyState == Connecting ==> sent == []) && NoFrameAfterStop(sent)
    }

    /** `new WebSocket(url)`. */
    constructor ()
      ensures Valid() && readyState == Connecting && sent == []
    {
      readyState := Connecting;
      sent := [];
    }

    /** `ws.send(m)`; the page calls it only on an OPEN socket, and never
        with audio once the sentinel has gone out. */
    method Send(m: Outbound)
      requires Valid() && readyState == Open
      requires m.Binary? ==> !StopSent(sent)
      modifies this
      ensures Valid() && readyState == Open
      ensures sent == old(sent) + [m]
    {
      sent := sent + [m];
    }
  }

  /** The controller state of the chat page. */
  class Recorder {
    /** inputValue: the text of the chat input box. */
    var input: string
    var isConnecting: bool
    var isRecording: bool
    /** baseTextRef: the input text frozen when recording started. */
    var baseText: string
    /** wsRef. */
    var ws: Socket?
    /** streamRef != null (the microphone is held). */
    var hasStream: bool
    /** audioContextRef != null. */
    var hasAudioContext: bool
    /** processorRef, given as the socket its onaudioprocess callback sends on. */
    var processor: Socket?

    ghost predicate Valid()
      reads this, ws, processor
    {
      && (ws != null ==> ws.Valid())
      && (processor != null ==> processor.Valid() && !StopSent(processor.sent))
    }

    /** The component's initial state. */
    constructor ()
      ensures Valid()
      ensures input == "" && baseText == ""
      ensures !isConnecting && !isRecording
      ensures ws == null && processor == null && !hasStream && !hasAudioContext
    {
      input := "";
      isConnecting, isRecording := false, false;
      baseText := "";
      ws := null;
      hasStream, hasAudioContext := false, false;
      processor := null;
    }

    /** What stopRecording leaves behind, given the state it started from:
        capture released, isRecording false, and the sentinel sent if and
        only if wsRef was OPEN (otherwise wsRef dropped). */
    twostate predicate StopEffect()
      reads this, ws
    {
      && processor == null && !hasAudioContext && !hasStream && !isRecording
      && input == old(input) && baseText == old(baseText) && isConnecting == old(isConnecting)
      && (if old(ws) != null && old(ws.readyState) == Open
          then ws == old(ws) && ws.readyState == Open && ws.sent == old(ws.sent) + [Text(StopSentinel)]
          else ws == null)
    }

    /** The user edits the input box (its onChange). */
    method Edit(text: string)
      modifies this
      ensures input == text
      ensures isConnecting == old(isConnecting) && isRecording == old(isRecording)
      ensures baseText == old(baseText) && ws == old(ws) && processor == old(processor)
      ensures hasStream == old(hasStream) && hasAudioContext == old(hasAudioContext)
    {
      input := text;
    }

    /** stopRecording: disconnect the processor, close the audio context, stop
        the tracks, then send the sentinel if the socket is OPEN (the socket is
        left open so that the remaining transcripts can arrive) or else drop
        the socket ref. */
    method Stop()
      requires Valid()
      modifies this, ws
      ensures Valid()
      ensures StopEffect()
      ensures old(ws) != null && ws == null ==> unchanged(old(ws))
    {
      processor := null;
      hasAudioContext := false;
      hasStream := false;
      if ws != null && ws.readyState == Open {
        ws.Send(Text(StopSentinel));
      } else {
        ws := null;
      }
      isRecording := false;
    }

    /** startRecording. `micGranted` is the outcome of getUserMedia. */
    method Start(micGranted: bool) returns (created: Socket?)
      requires Valid()
      modifies this
      ensures Valid()
      ensures input == old(input) && isRecording == old(isRecording)
      ensures processor == old(processor) && hasAudioContext == old(hasAudioContext)
      ensures old(isConnecting) ==>
        created == null && isConnecting && baseText == old(baseText)
        && ws == old(ws) && hasStream == old(hasStream)
      ensures !old(isConnecting) ==> baseText == old(input)
      ensures !old(isConnecting) && micGranted ==>
        created != null && fresh(created) && created.readyState == Connecting && created.sent == []
        && ws == created && hasStream && isConnecting
      ensures !old(isConnecting) && !micGranted ==>
        created == null && !isConnecting && ws == old(ws) && hasStream == old(hasStream)
    {
      created := null;
      if isConnecting {
        return;
      }
      isConnecting := true;
      baseText := input;
      if micGranted {
        hasStream := true;
        created := new Socket();
        ws := created;
      } else {
        isConnecting := false;
      }
    }

    /** toggleRecording: ignored while connecting; otherwise stop when
        recording and start when not. */
    method Toggle(micGranted: bool) returns (created: Socket?)
      requires Valid()
      modifies this, ws
      ensures Valid()
      ensures old(isConnecting) ==>
        created == null && isConnecting && !fresh(ws) && unchanged(this) && (ws != null ==> unchanged(ws))
      ensures !old(isConnecting) && old(isRecording) ==> created == null && StopEffect()
      ensures !old(isConnecting) && !old(isRecording) ==>
        && baseText == old(input) && input == old(input) && !isRecording
        && processor == old(processor) && hasAudioContext == old(hasAudioContext)
        && (old(ws) != null ==> unchanged(old(ws)))
        && (micGranted ==>
              created != null && fresh(created) && created.readyState == Connecting && created.sent == []
              && ws == created && hasStream && isConnecting)
        && (!micGranted ==> created == null && !isConnecting && ws == old(ws) && hasStream == old(hasStream))
      ensures old(ws) != null && ws == null ==> unchanged(old(ws))
    {
      created := null;
      if isConnecting {
        return;
      }
      if isRecording {
        Stop();
      } else {
        created := Start(micGranted);
      }
    }

    /** The socket's open event (the browser has set readyState to OPEN):
        recording begins and processAudio binds a processor to this socket. */
    method OnOpen(s: Socket)
      requires Valid() && s.Valid() && s.readyState == Connecting
      modifies this, s
      ensures Valid()
      ensures s.readyState == Open && s.sent == old(s.sent)
      ensures isRecording && !isConnecting && hasAudioContext && processor == s
      ensures input == old(input) && baseText == old(baseText) && ws == old(ws) && hasStream == old(hasStream)
    {
      s.readyState := Open;
      isRecording := true;
      isConnecting := false;
      hasAudioContext := true;
      processor := s;
    }

    /** The socket's message event: a truthy `text` replaces the input with
        the frozen base text followed by that text; `error` is only logged. */
    method OnMessage(u: Update)
      modifies this
      ensures input == if Truthy(u.text) then baseText + u.text.value else old(input)
      ensures isConnecting == old(isConnecting) && isRecording == old(isRecording)
      ensures baseText == old(baseText) && ws == old(ws) && processor == old(processor)
      ensures hasStream == old(hasStream) && hasAudioContext == old(hasAudioContext)
    {
      if Truthy(u.text) {
        input := baseText + u.text.value;
      }
    }

    /** The processor's onaudioprocess for one block: sends the PCM encoding of
        the block, but only while the socket it is bound to is OPEN. A released
        processor delivers no blocks. */
    method OnAudio(block: seq<real>)
      requires Valid()
      modifies processor
      ensures Valid()
      ensures processor != null && old(processor.readyState) == Open ==>
        processor.readyState == Open
        && processor.sent == old(processor.sent) + [Binary(Pcm.Int16Bytes(Pcm.EncodeBlock(block)))]
      ensures processor != null && old(processor.readyState) != Open ==> unchanged(processor)
    {
      if processor != null && processor.readyState == Open {
        var pcm := Pcm.FloatTo16BitPCM(block);
        processor.Send(Binary(pcm));
      }
    }

    /** The socket's error or close event (the browser has set readyState to
        CLOSED): isConnecting cleared, then stopRecording. The handler is bound
        to `s`, but stopRecording acts on whatever wsRef holds now. */
    method OnClosed(s: Socket)
      requires Valid() && s.Valid()
      modifies this, s, ws
      ensures Valid()
      ensures s.readyState == Closed && s.sent == old(s.sent)
      ensures !isConnecting
      ensures processor == null && !hasAudioContext && !hasStream && !isRecording
      ensures input == old(input) && baseText == old(baseText)
      ensures if old(ws) != null && old(ws) != s && old(ws.readyState) == Open
              then ws == old(ws) && ws.readyState == Open && ws.sent == old(ws.sent) + [Text(StopSentinel)]
              else ws == null
      ensures old(ws) != null && old(ws) != s && ws == null ==> unchanged(old(ws))
    {
      s.readyState := Closed;
      isConnecting := false;
      Stop();
    }

    /** The cleanup effect run on unmount: stopRecording. */
    method Unmount()
      requires Valid()
      modifies this, ws
      ensures Valid()
      ensures StopEffect()
      ensures old(ws) != null && ws == null ==> unchanged(old(ws))
    {
      Stop();
    }
  }

  // -----------------------------------------------------------------------
  // Client runs: what a caller can conclude from the contracts alone
  // -----------------------------------------------------------------------

  /** Transcripts replace rather than append, behind the frozen base text,
      and editing the box during recording does not change the base. */
  method SnapshotReplaceRun()
  {
    var r := new Recorder();
    r.Edit("X");
    var s := r.Toggle(true);
    assert s != null && r.baseText == "X";
    r.OnOpen(s);
    r.Edit("edited meanwhile");
    r.OnMessage(Update(Some("A"), None));
    assert r.input == "XA";
    r.OnMessage(Update(Some("AB"), None));
    assert r.input == "XAB";
    r.OnMessage(Update(None, Some("recognition hiccup")));
    assert r.input == "XAB" && r.isRecording;
  }

  /** Two-phase shutdown: after stop no audio is sent, a trailing transcript
      is still applied, and the server's close ends the session so that a
      fresh one can start. */
  method TwoPhaseShutdownRun(block: seq<real>)
  {
    var r := new Recorder();
    var s := r.Toggle(true);
    assert s != null;
    r.OnOpen(s);
    r.OnAudio(block);
    assert |s.sent| == 1 && s.sent[0].Binary?;
    var none := r.Toggle(true);
    assert s.sent == [s.sent[0], Text(StopSentinel)];
    r.OnAudio(block);
    assert |s.sent| == 2;
    r.OnMessage(Update(Some("final words"), None));
    assert r.input == "final words";
    r.OnClosed(s);
    assert r.ws == null && !r.isConnecting && !r.isRecording;
    var s2 := r.Toggle(true);
    assert s2 != null && s2 != s && r.ws == s2 && r.baseText == "final words";
  }

  /** An abrupt close while connecting releases everything and lets the next
      toggle start again. */
  method AbruptCloseRun()
  {
    var r := new Recorder();
    var s := r.Toggle(true);
    assert s != null && r.isConnecting;
    var ignored := r.Toggle(true);
    assert ignored == null && r.ws == s;
    r.OnClosed(s);
    assert r.ws == null && !r.hasStream && r.processor == null && !r.isConnecting;
    var s2 := r.Toggle(true);
    assert s2 != null && r.ws == s2;
  }

  /** The close event of an earlier socket arrives after a new session has
      opened: its handler runs stopRecording against the new session, which
      releases the new capture and sends the sentinel on the new socket. */
  method StaleCloseRun()
  {
    var r := new Recorder();
    var s1 := r.Toggle(true);
    assert s1 != null;
    r.OnOpen(s1);
    var none := r.Toggle(true);
    assert r.ws == s1 && StopSent(s1.sent) && !r.isRecording;
    var s2 := r.Toggle(true);
    assert s2 != null && s2 != s1;
    r.OnOpen(s2);
    assert r.isRecording && r.processor == s2;
    r.OnClosed(s1);
    assert !r.isRecording && r.processor == null && s2.sent == [Text(StopSentinel)];
  }
}
