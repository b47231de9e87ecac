/** The relay endpoint of the backend: the browser's socket messages are
    sorted into an audio queue, the queue feeds the recognition stream
    through a generator that stops at the first end-of-stream item, and the
    chat endpoint's `max_tokens` setting is read from the environment. */
module Relay {
  import opened Common
  import AsrFrames

  /** What `websocket.receive()` produces, seen from the loop: a binary or a
      text message, the disconnect message, or a receive that raises. */
  datatype ClientEvent = BinaryMsg(data: seq<byte>) | TextMsg(text: string) | Disconnect | ReceiveError

  /** An item of the audio queue: a chunk, or the None that ends the stream. */
  datatype QueueItem = Audio(chunk: seq<byte>) | EndOfStream

  const StopText: string := "STOP"

  /** The policy-violation close code sent when credentials are missing. */
  const PolicyViolation: int := 1008

  /** Python truthiness of an environment value: unset or empty is false. */
  predicate Present(v: Option<string>)
  {
    v.Some? && v.value != ""
  }

  /** What the receive loop enqueues for the given events. The disconnect
      message carries neither bytes nor text; the loop goes round once more
      and the next receive raises, so both end in one EndOfStream. */
  function Enqueued(events: seq<ClientEvent>): seq<QueueItem>
  {
    if events == [] then []
    else match events[0]
      case BinaryMsg(data) => (if |data| > 0 then [Audio(data)] else []) + Enqueued(events[1..])
      case TextMsg(t) => (if t == StopText then [EndOfStream] else []) + Enqueued(events[1..])
      case Disconnect => [EndOfStream]
      case ReceiveError => [EndOfStream]
  }

  /** websocket_endpoint after accept (the ASR task running beside it is left
      out): with a missing app id or API key the socket is closed with 1008
      and nothing is queued; otherwise every event is dispatched until the
      client goes away. */
  method Endpoint(appId: Option<string>, apiKey: Option<string>, events: seq<ClientEvent>)
    returns (closeCode: Option<int>, queue: seq<QueueItem>)
    ensures !Present(appId) || !Present(apiKey) ==> closeCode == Some(PolicyViolation) && queue == []
    ensures Present(appId) && Present(apiKey) ==> closeCode == None && queue == Enqueued(events)
  {
    if !Present(appId) || !Present(apiKey) {
      return Some(PolicyViolation), [];
    }
    closeCode := None;
    queue := [];
    var i := 0;
    while i < |events|
      invariant 0 <= i <= |events|
      invariant queue + Enqueued(events[i..]) == Enqueued(events)
      decreases |events| - i
    {
      var e, rest := events[i], events[i + 1..];
      assert events[i..] == [e] + rest;
      assert queue + Enqueued([e] + rest) == Enqueued(events);
      EnqueuedSpec(e, rest);
      match e {
        case BinaryMsg(data) =>
          if |data| > 0 {
            assert (queue + [Audio(data)]) + Enqueued(rest) == queue + ([Audio(data)] + Enqueued(rest));
            queue := queue + [Audio(data)];
          }
        case TextMsg(t) =>
          if t == StopText {
            assert (queue + [EndOfStream]) + Enqueued(rest) == queue + ([EndOfStream] + Enqueued(rest));
            queue := queue + [EndOfStream];
          }
        case Disconnect =>
          queue := queue + [EndOfStream];
          return;
        case ReceiveError =>
          queue := queue + [EndOfStream];
          return;
      }
      i := i + 1;
    }
  }

  /** The chunks audio_generator yields: queue items up to the first None. */
  function Yielded(q: seq<QueueItem>): seq<seq<byte>>
  {
    if q == [] || q[0] == EndOfStream then [] else [q[0].chunk] + Yielded(q[1..])
  }

  /** audio_generator over a queue whose items have all arrived: it takes
      items in FIFO order and stops at the first `None`. */
  method AudioGenerator(q: seq<QueueItem>) returns (yielded: seq<seq<byte>>, finished: bool)
    ensures yielded == Yielded(q)
    ensures finished <==> EndOfStream in q
  {
    yielded := [];
    var i := 0;
    while i < |q|
      invariant 0 <= i <= |q|
      invariant EndOfStream !in q[..i]
      invariant yielded + Yielded(q[i..]) == Yielded(q)
      decreases |q| - i
    {
      if q[i] == EndOfStream {
        return yielded, true;
      }
      assert q[i..][1..] == q[i + 1..];
      assert q[..i + 1] == q[..i] + [q[i]];
      yielded := yielded + [q[i].chunk];
      i := i + 1;
    }
    assert q[..i] == q;
    finished := false;
  }

  /** The index of the first end-of-stream item, or |q|. */
  function FirstEnd(q: seq<QueueItem>): (k: nat)
    ensures k <= |q|
    ensures k < |q| ==> q[k] == EndOfStream
    ensures forall i :: 0 <= i < k ==> q[i] != EndOfStream
  {
    if q == [] then 0 else if q[0] == EndOfStream then 0 else 1 + FirstEnd(q[1..])
  }

  /** The generator yields exactly the chunks before the first None, in
      order, and nothing queued after it. */
  lemma {:induction false} YieldedSpec(q: seq<QueueItem>)
    ensures var k := FirstEnd(q);
            |Yielded(q)| == k && forall i :: 0 <= i < k ==> Yielded(q)[i] == q[i].chunk
    ensures forall rest: seq<QueueItem> :: FirstEnd(q) < |q| ==> Yielded(q + rest) == Yielded(q)
  {
    if q != [] && q[0] != EndOfStream {
      YieldedSpec(q[1..]);
      forall rest: seq<QueueItem> | FirstEnd(q) < |q| ensures Yielded(q + rest) == Yielded(q) {
        assert (q + rest)[1..] == q[1..] + rest;
      }
    } else if q != [] {
      forall rest: seq<QueueItem> ensures Yielded(q + rest) == Yielded(q) {
        assert (q + rest)[0] == EndOfStream;
      }
    }
  }

  /** Dispatch keeps arrival order and drops nothing but empty chunks and
      non-STOP texts: STOP and the client going away each queue one None,
      and the loop goes on after STOP but not after a disconnect. */
  lemma EnqueuedSpec(e: ClientEvent, rest: seq<ClientEvent>)
    ensures e.BinaryMsg? && |e.data| > 0 ==> Enqueued([e] + rest) == [Audio(e.data)] + Enqueued(rest)
    ensures e.BinaryMsg? && |e.data| == 0 ==> Enqueued([e] + rest) == Enqueued(rest)
    ensures e.TextMsg? && e.text == StopText ==> Enqueued([e] + rest) == [EndOfStream] + Enqueued(rest)
    ensures e.TextMsg? && e.text != StopText ==> Enqueued([e] + rest) == Enqueued(rest)
    ensures e.Disconnect? || e.ReceiveError? ==> Enqueued([e] + rest) == [EndOfStream]
  {
    assert ([e] + rest)[1..] == rest;
  }

  /** Only non-empty chunks are queued. */
  lemma {:induction false} EnqueuedChunksNonEmpty(events: seq<ClientEvent>)
    ensures forall i :: 0 <= i < |Enqueued(events)| && Enqueued(events)[i].Audio? ==> |Enqueued(events)[i].chunk| > 0
  {
    if events != [] {
      EnqueuedChunksNonEmpty(events[1..]);
      var h := match events[0]
        case BinaryMsg(data) => if |data| > 0 then [Audio(data)] else []
        case TextMsg(t) => if t == StopText then [EndOfStream] else []
        case _ => [EndOfStream];
      if events[0].BinaryMsg? || events[0].TextMsg? {
        assert Enqueued(events) == h + Enqueued(events[1..]);
        forall i | 0 <= i < |Enqueued(events)| && Enqueued(events)[i].Audio?
          ensures |Enqueued(events)[i].chunk| > 0
        {
          if i >= |h| {
            assert Enqueued(events)[i] == Enqueued(events[1..])[i - |h|];
          }
        }
      }
    }
  }

  /** A client that disconnects or errors always ends the generator. */
  lemma {:induction false} GeneratorTerminates(events: seq<ClientEvent>, i: nat)
    requires i < |events| && (events[i].Disconnect? || events[i].ReceiveError?)
    ensures EndOfStream in Enqueued(events)
  {
    match events[0]
    case Disconnect =>
    case ReceiveError =>
    case BinaryMsg(data) =>
      assert events[1..][i - 1] == events[i];
      GeneratorTerminates(events[1..], i - 1);
      assert Enqueued(events) == (if |data| > 0 then [Audio(data)] else []) + Enqueued(events[1..]);
    case TextMsg(t) =>
      assert events[1..][i - 1] == events[i];
      GeneratorTerminates(events[1..], i - 1);
      assert Enqueued(events) == (if t == StopText then [EndOfStream] else []) + Enqueued(events[1..]);
  }

  /** The audio the client sends before its first STOP (or before it goes
      away): the non-empty binary payloads, in order. */
  function ClientAudio(events: seq<ClientEvent>): seq<seq<byte>>
  {
    if events == [] then []
    else match events[0]
      case BinaryMsg(data) => (if |data| > 0 then [data] else []) + ClientAudio(events[1..])
      case TextMsg(t) => if t == StopText then [] else ClientAudio(events[1..])
      case Disconnect => []
      case ReceiveError => []
  }

  lemma {:induction false} YieldedIsClientAudio(events: seq<ClientEvent>)
    ensures Yielded(Enqueued(events)) == ClientAudio(events)
  {
    if events != [] {
      YieldedIsClientAudio(events[1..]);
      match events[0]
      case BinaryMsg(data) =>
        if |data| > 0 {
          var q := Enqueued(events);
          assert q == [Audio(data)] + Enqueued(events[1..]);
          assert q[0] == Audio(data) && q[1..] == Enqueued(events[1..]);
          assert Yielded(q) == [data] + Yielded(q[1..]);
        } else {
          assert Enqueued(events) == Enqueued(events[1..]);
        }
      case TextMsg(t) =>
        if t == StopText {
          assert Enqueued(events)[0] == EndOfStream;
        } else {
          assert Enqueued(events) == Enqueued(events[1..]);
        }
      case Disconnect =>
      case ReceiveError =>
    }
  }

  /** End to end, once the queue holds its None (the generator has returned,
      so send_audio flushes and sends the end marker): the audio messages the
      recognition service receives concatenate to exactly the non-empty binary
      payloads the client sent before its first STOP (or before going away),
      and the end marker follows them; nothing after the STOP is forwarded. */
  lemma RelayForwardsAudio(events: seq<ClientEvent>)
    requires EndOfStream in Enqueued(events)
    ensures var out := AsrFrames.Outgoing(Yielded(Enqueued(events)));
            && out[|out| - 1] == AsrFrames.EndMarker
            && Flatten(out[..|out| - 1]) == Flatten(ClientAudio(events))
  {
    YieldedIsClientAudio(events);
    AsrFrames.OutgoingSpec(ClientAudio(events));
  }

  /** A client that disconnects or fails always has its audio forwarded in
      full, followed by the end marker. */
  lemma RelayForwardsAudioOnLeave(events: seq<ClientEvent>, i: nat)
    requires i < |events| && (events[i].Disconnect? || events[i].ReceiveError?)
    ensures var out := AsrFrames.Outgoing(Yielded(Enqueued(events)));
            && out[|out| - 1] == AsrFrames.EndMarker
            && Flatten(out[..|out| - 1]) == Flatten(ClientAudio(events))
  {
    GeneratorTerminates(events, i);
    RelayForwardsAudio(events);
  }

  // -----------------------------------------------------------------------
  // max_tokens: int(os.getenv("LOCAL_LLM_MAX_TOKENS", "2000")), else 2000
  // -----------------------------------------------------------------------

  const DefaultMaxTokens: int := 2000

  /** The most digits int() converts from a string (Python 3.11 and later). */
  const MaxStrDigits: nat := 4300

  predicate IsDigit(c: char)
  {
    '0' <= c <= '9'
  }

  function DigitsOnly(s: string): (r: string)
    ensures forall i :: 0 <= i < |r| ==> r[i] != '_'
    ensures |r| <= |s|
  {
    if s == [] then [] else (if s[0] == '_' then [] else [s[0]]) + DigitsOnly(s[1..])
  }

  /** A base-10 literal: digits, with single underscores only between digits. */
  predicate WellFormedBody(s: string)
  {
    && |s| > 0 && IsDigit(s[0]) && IsDigit(s[|s| - 1])
    && (forall i :: 0 <= i < |s| ==> IsDigit(s[i]) || s[i] == '_')
    && (forall i, j :: 0 <= i < |s| && 0 <= j < |s| && j == i + 1 ==> !(s[i] == '_' && s[j] == '_'))
  }

  /** The value of a string of decimal digits. */
  function Value(ds: string): int
  {
    if ds == [] then 0 else 10 * Value(ds[..|ds| - 1]) + (ds[|ds| - 1] as int - '0' as int)
  }

  /** The unsigned part of a base-10 literal, None where int() rejects it:
      at most MaxStrDigits digits are converted. */
  function ParseLiteral(body: string): Option<int>
  {
    if !WellFormedBody(body) then None
    else
      var ds := DigitsOnly(body);
      if |ds| > MaxStrDigits then None else Some(Value(ds))
  }

  /** The whitespace int() skips around a literal: non-ASCII whitespace
      counts (it is turned into a space first), but of the ASCII characters
      only tab, line feed, vertical tab, form feed, carriage return and space
      do; the separators U+001C..U+001F, which strip() removes, are kept. */
  predicate IsIntWhitespace(c: char)
  {
    ('\t' <= c <= '\r') || c == ' ' || (c as int >= 128 && IsPyWhitespace(c))
  }

  /** `int(s)` with base 10, None where it raises ValueError: surrounding
      whitespace is ignored and one sign is allowed. */
  function ParsePyInt(s: string): Option<int>
  {
    ParseSigned(Trim(s, IsIntWhitespace))
  }

  /** A literal with at most one leading sign. */
  function ParseSigned(t: string): Option<int>
  {
    if |t| > 0 && t[0] == '-' then Negated(ParseLiteral(t[1..]))
    else if |t| > 0 && t[0] == '+' then ParseLiteral(t[1..])
    else ParseLiteral(t)
  }

  function Negated(r: Option<int>): Option<int>
  {
    match r
    case None => None
    case Some(v) => Some(-v)
  }

  /** max_tokens as read from the environment variable (None when unset). */
  function MaxTokens(env: Option<string>): int
  {
    ParsePyInt(env.GetOr("2000")).GetOr(DefaultMaxTokens)
  }

  /** The decimal digits of a natural number. */
  function Digits(n: nat): (r: string)
    ensures |r| > 0
    ensures forall i :: 0 <= i < |r| ==> IsDigit(r[i])
  {
    if n < 10 then [('0' as int + n) as char] else Digits(n / 10) + [('0' as int + n % 10) as char]
  }

  /** The text `str(n)` writes. */
  function DecimalString(n: int): string
  {
    if n < 0 then ['-'] + Digits(-n) else Digits(n)
  }

  lemma {:induction false} DigitsValue(n: nat)
    ensures Value(Digits(n)) == n
  {
    if n >= 10 {
      DigitsValue(n / 10);
      var d := Digits(n);
      assert d[..|d| - 1] == Digits(n / 10);
    }
  }

  lemma {:induction false} DigitsOnlyOfDigits(s: string)
    requires forall i :: 0 <= i < |s| ==> IsDigit(s[i])
    ensures DigitsOnly(s) == s
  {
    if s != [] {
      DigitsOnlyOfDigits(s[1..]);
    }
  }

  lemma TrimOfDigits(s: string)
    requires |s| > 0 && !IsIntWhitespace(s[0]) && !IsIntWhitespace(s[|s| - 1])
    ensures Trim(s, IsIntWhitespace) == s
  {
  }

  /** A plain run of digits is a well-formed literal that converts to its value. */
  lemma ParseDigits(d: string)
    requires d != [] && forall i :: 0 <= i < |d| ==> IsDigit(d[i])
    requires |d| <= MaxStrDigits
    ensures ParseLiteral(d) == Some(Value(d))
  {
    DigitsOnlyOfDigits(d);
    assert WellFormedBody(d);
  }

  /** The digits of a number within the limit convert back to that number. */
  lemma ParseDigitsOf(m: nat)
    requires |Digits(m)| <= MaxStrDigits
    ensures ParseLiteral(Digits(m)) == Some(m)
  {
    DigitsValue(m);
    ParseDigits(Digits(m));
  }

  /** A string that neither starts nor ends with whitespace is converted as it is. */
  lemma ParseUnpadded(s: string)
    requires s != [] && !IsIntWhitespace(s[0]) && !IsIntWhitespace(s[|s| - 1])
    ensures ParsePyInt(s) == ParseSigned(s)
  {
    TrimOfDigits(s);
  }

  /** A leading minus negates what the rest converts to. */
  lemma ParseMinus(d: string)
    ensures ParseSigned(['-'] + d) == Negated(ParseLiteral(d))
  {
    assert (['-'] + d)[0] == '-' && (['-'] + d)[1..] == d;
  }

  lemma ParseNegative(d: string, v: int)
    requires d != [] && IsDigit(d[|d| - 1])
    requires ParseLiteral(d) == Some(v)
    ensures ParsePyInt(['-'] + d) == Some(-v)
  {
    var s := ['-'] + d;
    assert s[0] == '-' && s[|s| - 1] == d[|d| - 1];
    ParseUnpadded(s);
    ParseMinus(d);
  }

  lemma ParseUnsigned(d: string, v: int)
    requires d != [] && IsDigit(d[0]) && IsDigit(d[|d| - 1])
    requires ParseLiteral(d) == Some(v)
    ensures ParsePyInt(d) == Some(v)
  {
    ParseUnpadded(d);
  }

  /** `int(str(n)) == n` for every integer whose digits are within the limit. */
  lemma ParseDecimalString(n: int)
    requires |Digits(if n < 0 then -n else n)| <= MaxStrDigits
    ensures ParsePyInt(DecimalString(n)) == Some(n)
  {
    var m := if n < 0 then -n else n;
    var d := Digits(m);
    ParseDigitsOf(m);
    if n < 0 {
      ParseNegative(d, m);
    } else {
      ParseUnsigned(d, m);
    }
  }

  /** Unset, max_tokens is the default written as a string. */
  lemma MaxTokensUnset()
    ensures MaxTokens(None) == DefaultMaxTokens
  {
    assert Digits(2000) == "2000" by {
      assert Digits(2) == "2";
      assert Digits(20) == "20";
      assert Digits(200) == "200";
    }
    ParseDecimalString(2000);
  }

  /** Any integer written out within the digit limit is read back as itself. */
  lemma MaxTokensRoundTrip(n: int)
    requires |Digits(if n < 0 then -n else n)| <= MaxStrDigits
    ensures MaxTokens(Some(DecimalString(n))) == n
  {
    ParseDecimalString(n);
  }

  /** A character int() never accepts in a literal makes it reject it. */
  lemma LiteralBadChar(body: string, j: nat)
    requires j < |body| && !IsDigit(body[j]) && body[j] != '_'
    ensures ParseLiteral(body) == None
  {
  }

  /** Two underscores in a row make int() reject a literal. */
  lemma LiteralDoubleUnderscore(body: string, j: nat)
    requires j + 1 < |body| && body[j] == '_' && body[j + 1] == '_'
    ensures ParseLiteral(body) == None
  {
    var k := j + 1;
    assert body[j] == '_' && body[k] == '_';
  }

  /** A character other than a digit, an underscore or a sign rejects the
      stripped text, wherever it stands. */
  lemma SignedBadChar(t: string, j: nat)
    requires j < |t| && !IsDigit(t[j]) && t[j] != '_' && t[j] != '+' && t[j] != '-'
    ensures ParseSigned(t) == None
  {
    if t[0] == '-' || t[0] == '+' {
      assert t[1..][j - 1] == t[j];
      LiteralBadChar(t[1..], j - 1);
    } else {
      LiteralBadChar(t, j);
    }
  }

  lemma SignedDoubleUnderscore(t: string, j: nat)
    requires j + 1 < |t| && t[j] == '_' && t[j + 1] == '_'
    ensures ParseSigned(t) == None
  {
    if t[0] == '-' || t[0] == '+' {
      assert t[1..][j - 1] == t[j] && t[1..][j] == t[j + 1];
      LiteralDoubleUnderscore(t[1..], j - 1);
    } else {
      LiteralDoubleUnderscore(t, j);
    }
  }

  /** An empty or whitespace-only setting falls back to 2000. */
  lemma MaxTokensBlank(s: string)
    requires AllWhitespace(s, IsPyWhitespace)
    ensures MaxTokens(Some(s)) == DefaultMaxTokens
  {
    if i :| 0 <= i < |s| && !IsIntWhitespace(s[i]) {
      MaxTokensNonNumeric(s, i);
    } else {
      TrimEmptyIff(s, IsIntWhitespace);
    }
  }

  /** An information separator in front of a number is not skipped. */
  lemma MaxTokensSeparatorKept(n: nat)
    ensures IsPyWhitespace('\U{1C}') && !IsIntWhitespace('\U{1C}')
    ensures MaxTokens(Some(['\U{1C}'] + DecimalString(n))) == DefaultMaxTokens
  {
    MaxTokensNonNumeric(['\U{1C}'] + DecimalString(n), 0);
  }

  /** A setting holding anything but digits, underscores, signs and
      whitespace, such as a letter or the point of a float, falls back to 2000. */
  lemma MaxTokensNonNumeric(s: string, i: nat)
    requires i < |s| && !IsDigit(s[i]) && s[i] != '_' && s[i] != '+' && s[i] != '-'
    requires !IsIntWhitespace(s[i])
    ensures MaxTokens(Some(s)) == DefaultMaxTokens
  {
    var a, b := TrimSlice(s, IsIntWhitespace);
    assert a <= i < b;
    var t := s[a..b];
    assert t[i - a] == s[i];
    SignedBadChar(t, i - a);
  }

  /** A setting with two underscores in a row falls back to 2000. */
  lemma MaxTokensDoubleUnderscore(s: string, i: nat)
    requires i + 1 < |s| && s[i] == '_' && s[i + 1] == '_'
    ensures MaxTokens(Some(s)) == DefaultMaxTokens
  {
    var a, b := TrimSlice(s, IsIntWhitespace);
    assert a <= i && i + 1 < b;
    var t := s[a..b];
    assert t[i - a] == s[i] && t[i - a + 1] == s[i + 1];
    SignedDoubleUnderscore(t, i - a);
  }

  /** int() reads only what is left after strip(). */
  lemma ParsePyIntPadded(w1: string, x: string, w2: string)
    requires AllWhitespace(w1, IsIntWhitespace) && AllWhitespace(w2, IsIntWhitespace)
    requires x != [] && !IsIntWhitespace(x[0]) && !IsIntWhitespace(x[|x| - 1])
    ensures ParsePyInt(w1 + x + w2) == ParsePyInt(x)
  {
    TrimPadded(w1, x, w2, IsIntWhitespace);
    TrimOfDigits(x);
  }

  /** Whitespace around the setting is ignored. */
  lemma MaxTokensPadded(w1: string, n: int, w2: string)
    requires AllWhitespace(w1, IsIntWhitespace) && AllWhitespace(w2, IsIntWhitespace)
    requires |Digits(if n < 0 then -n else n)| <= MaxStrDigits
    ensures MaxTokens(Some(w1 + DecimalString(n) + w2)) == n
  {
    var x := DecimalString(n);
    var d := Digits(if n < 0 then -n else n);
    assert x[|x| - 1] == d[|d| - 1];
    ParsePyIntPadded(w1, x, w2);
    ParseDecimalString(n);
  }

  lemma {:induction false} DigitsOnlyAppend(a: string, b: string)
    ensures DigitsOnly(a + b) == DigitsOnly(a) + DigitsOnly(b)
  {
    if a != [] {
      assert (a + b)[0] == a[0] && (a + b)[1..] == a[1..] + b;
      DigitsOnlyAppend(a[1..], b);
    } else {
      assert a + b == b;
    }
  }

  lemma UnderscoreWellFormed(d: string, e: string)
    requires d != [] && e != []
    requires forall i :: 0 <= i < |d| ==> IsDigit(d[i])
    requires forall i :: 0 <= i < |e| ==> IsDigit(e[i])
    ensures WellFormedBody(d + ['_'] + e)
  {
    var s := d + ['_'] + e;
    assert s[0] == d[0] && s[|s| - 1] == e[|e| - 1];
    forall i | 0 <= i < |s| ensures IsDigit(s[i]) || s[i] == '_' {
      if i < |d| {
        assert s[i] == d[i];
      } else if i > |d| {
        assert s[i] == e[i - |d| - 1];
      }
    }
    forall i, j | 0 <= i < |s| && 0 <= j < |s| && j == i + 1 ensures !(s[i] == '_' && s[j] == '_') {
      if i < |d| - 1 {
        assert s[i] == d[i];
      } else if i == |d| - 1 {
        assert s[i] == d[|d| - 1];
      } else if i == |d| {
        assert s[j] == e[0];
      } else {
        assert s[i] == e[i - |d| - 1];
      }
    }
  }

  lemma UnderscoreDigits(d: string, e: string)
    requires forall i :: 0 <= i < |d| ==> IsDigit(d[i])
    requires forall i :: 0 <= i < |e| ==> IsDigit(e[i])
    ensures DigitsOnly(d + ['_'] + e) == d + e
  {
    DigitsOnlyAppend(d + ['_'], e);
    DigitsOnlyAppend(d, ['_']);
    assert DigitsOnly(['_']) == [] by {
      assert ['_'][1..] == [];
    }
    DigitsOnlyOfDigits(d);
    DigitsOnlyOfDigits(e);
    assert d + [] == d;
  }

  /** A single underscore between two groups of digits is accepted and
      ignored, as in `1_000`. */
  lemma UnderscoreSeparated(d: string, e: string)
    requires d != [] && e != []
    requires forall i :: 0 <= i < |d| ==> IsDigit(d[i])
    requires forall i :: 0 <= i < |e| ==> IsDigit(e[i])
    requires |d| + |e| <= MaxStrDigits
    ensures ParsePyInt(d + ['_'] + e) == Some(Value(d + e))
  {
    var s := d + ['_'] + e;
    assert s[0] == d[0] && s[|s| - 1] == e[|e| - 1];
    TrimOfDigits(s);
    UnderscoreWellFormed(d, e);
    UnderscoreDigits(d, e);
  }

}
