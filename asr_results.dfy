/** The receiving half of the recognition stream (receive_msg): each message
    from the service is a parsed JSON value; result messages yield the text
    of `data.cn.st.rt[*].ws[*].cw[*].w` concatenated in order, passed on
    with `is_final` when non-empty. Python's behaviour on ill-typed values is
    kept: an operation that would raise makes the whole message yield
    nothing (the inner handler), except that an unparsable or non-object
    message ends the loop (the outer handler). */
module AsrResults {
  import opened Common

  /** A parsed JSON value; `JNull` is also Python's None, which `.get`
      returns for a missing key. Numbers are integers here. */
  datatype Json = JNull | JBool(b: bool) | JNum(n: int) | JStr(s: string)
                | JArr(items: seq<Json>) | JObj(fields: seq<(string, Json)>)

  /** Either a value or an exception. */
  datatype Outcome<T> = Ok(value: T) | Raised

  /** What one message leads to. */
  datatype Payload = TextResult(text: string, isFinal: bool)

  datatype Handled = Emit(payload: Payload) | Nothing | Halt

  /** A frame of the service's socket, or the remote closing it. */
  datatype Incoming = Frame(raw: string) | ConnectionClosed

  // -----------------------------------------------------------------------
  // Python operations on parsed JSON
  // -----------------------------------------------------------------------

  function Truthy(j: Json): bool
  {
    match j
    case JNull => false
    case JBool(b) => b
    case JNum(n) => n != 0
    case JStr(s) => s != ""
    case JArr(xs) => xs != []
    case JObj(fs) => fs != []
  }

  /** The value stored under `key`; json.loads keeps the last duplicate. */
  function Lookup(fs: seq<(string, Json)>, key: string): Option<Json>
  {
    if fs == [] then None
    else if fs[|fs| - 1].0 == key then Some(fs[|fs| - 1].1)
    else Lookup(fs[..|fs| - 1], key)
  }

  /** `j.get(key, default)`: only a dict has `get`. */
  function Get(j: Json, key: string, default: Json): Outcome<Json>
  {
    if j.JObj? then Ok(Lookup(j.fields, key).GetOr(default)) else Raised
  }

  /** `for x in j`: a list yields its items, a dict its keys, a string its
      characters; anything else is not iterable. */
  function Iter(j: Json): Outcome<seq<Json>>
  {
    match j
    case JArr(xs) => Ok(xs)
    case JObj(fs) => Ok(seq(|fs|, i requires 0 <= i < |fs| => JStr(fs[i].0)))
    case JStr(s) => Ok(seq(|s|, i requires 0 <= i < |s| => JStr([s[i]])))
    case _ => Raised
  }

  /** `"w" in cw`. */
  function HasW(cw: Json): Outcome<bool>
  {
    match cw
    case JObj(fs) => Ok(Lookup(fs, "w").Some?)
    case JArr(xs) => Ok(JStr("w") in xs)
    case JStr(s) => Ok('w' in s)
    case _ => Raised
  }

  /** The text `text += cw["w"]` adds, given `"w" in cw`: only a dict can be
      indexed by a string, and only a string can be added to text. */
  function WordOf(cw: Json): Outcome<string>
  {
    if cw.JObj? && Lookup(cw.fields, "w").Some? && Lookup(cw.fields, "w").value.JStr? then
      Ok(Lookup(cw.fields, "w").value.s)
    else Raised
  }

  function Cat(a: Outcome<string>, b: Outcome<string>): Outcome<string>
  {
    if a.Ok? && b.Ok? then Ok(a.value + b.value) else Raised
  }

  // -----------------------------------------------------------------------
  // The text of one st object
  // -----------------------------------------------------------------------

  function CwText(cw: Json): Outcome<string>
  {
    match HasW(cw)
    case Raised => Raised
    case Ok(has) => if has then WordOf(cw) else Ok("")
  }

  function CwsText(cws: seq<Json>): Outcome<string>
  {
    if cws == [] then Ok("") else Cat(CwText(cws[0]), CwsText(cws[1..]))
  }

  /** The candidate words of one ws item. */
  function CwsOf(item: Json): Outcome<seq<Json>>
  {
    match Get(item, "cw", JArr([]))
    case Raised => Raised
    case Ok(v) => Iter(v)
  }

  function WsItemText(item: Json): Outcome<string>
  {
    match CwsOf(item)
    case Raised => Raised
    case Ok(cws) => CwsText(cws)
  }

  function WsText(items: seq<Json>): Outcome<string>
  {
    if items == [] then Ok("") else Cat(WsItemText(items[0]), WsText(items[1..]))
  }

  /** The ws items of one rt entry. */
  function ItemsOf(rt: Json): Outcome<seq<Json>>
  {
    match Get(rt, "ws", JArr([]))
    case Raised => Raised
    case Ok(v) => Iter(v)
  }

  function RtEntryText(rt: Json): Outcome<string>
  {
    match ItemsOf(rt)
    case Raised => Raised
    case Ok(items) => WsText(items)
  }

  function RtText(rts: seq<Json>): Outcome<string>
  {
    if rts == [] then Ok("") else Cat(RtEntryText(rts[0]), RtText(rts[1..]))
  }

  /** The rt entries of an st dict (none when it has no "rt" key). */
  function RtsOf(st: Json): Outcome<seq<Json>>
  {
    if st.JObj? && Lookup(st.fields, "rt").Some? then Iter(Lookup(st.fields, "rt").value)
    else if st.JObj? then Ok([])
    else Raised
  }

  /** The text the nested loops accumulate for an st dict. */
  function StText(st: Json): Outcome<string>
  {
    match RtsOf(st)
    case Raised => Raised
    case Ok(rts) => RtText(rts)
  }

  lemma CatAssoc(a: Outcome<string>, b: Outcome<string>, c: Outcome<string>)
    ensures Cat(a, Cat(b, c)) == Cat(Cat(a, b), c)
  {
    if a.Ok? && b.Ok? && c.Ok? {
      assert a.value + (b.value + c.value) == (a.value + b.value) + c.value;
    }
  }

  lemma CatEmpty(b: Outcome<string>)
    ensures Cat(Ok(""), b) == b
  {
    if b.Ok? {
      assert "" + b.value == b.value;
    }
  }

  /** The innermost loop of receive_msg: the words of one ws item, appended
      in order; an operation that raises abandons the message. */
  method CwsLoop(cws: seq<Json>) returns (r: Outcome<string>)
    ensures r == CwsText(cws)
  {
    var text := "";
    CatEmpty(CwsText(cws));
    for k := 0 to |cws|
      invariant Cat(Ok(text), CwsText(cws[k..])) == CwsText(cws)
    {
      assert cws[k..][1..] == cws[k + 1..];
      var hasOr := HasW(cws[k]);
      if hasOr.Raised? {
        return Raised;
      }
      if hasOr.value {
        var wOr := WordOf(cws[k]);
        if wOr.Raised? {
          return Raised;
        }
        CatAssoc(Ok(text), wOr, CwsText(cws[k + 1..]));
        text := text + wOr.value;
      } else {
        CatAssoc(Ok(text), Ok(""), CwsText(cws[k + 1..]));
        assert text + "" == text;
      }
    }
    assert cws[|cws|..] == [];
    assert text + "" == text;
    r := Ok(text);
  }

  /** The middle loop: the ws items of one rt entry. */
  method WsLoop(items: seq<Json>) returns (r: Outcome<string>)
    ensures r == WsText(items)
  {
    var text := "";
    CatEmpty(WsText(items));
    for j := 0 to |items|
      invariant Cat(Ok(text), WsText(items[j..])) == WsText(items)
    {
      assert items[j..][1..] == items[j + 1..];
      assert WsText(items[j..]) == Cat(WsItemText(items[j]), WsText(items[j + 1..]));
      var cwsOr := CwsOf(items[j]);
      if cwsOr.Raised? {
        return Raised;
      }
      var t := CwsLoop(cwsOr.value);
      if t.Raised? {
        return Raised;
      }
      CatAssoc(Ok(text), t, WsText(items[j + 1..]));
      text := text + t.value;
    }
    assert items[|items|..] == [];
    assert text + "" == text;
    r := Ok(text);
  }

  /** The nested loops of receive_msg over `st["rt"]`; a missing "rt" key
      gives the empty text. */
  method ExtractText(st: Json) returns (r: Outcome<string>)
    ensures r == StText(st)
  {
    var rtsOr := RtsOf(st);
    if rtsOr.Raised? {
      return Raised;
    }
    var rts := rtsOr.value;
    var text := "";
    CatEmpty(RtText(rts));
    for i := 0 to |rts|
      invariant Cat(Ok(text), RtText(rts[i..])) == RtText(rts)
    {
      assert rts[i..][1..] == rts[i + 1..];
      assert RtText(rts[i..]) == Cat(RtEntryText(rts[i]), RtText(rts[i + 1..]));
      var itemsOr := ItemsOf(rts[i]);
      if itemsOr.Raised? {
        return Raised;
      }
      var t := WsLoop(itemsOr.value);
      if t.Raised? {
        return Raised;
      }
      CatAssoc(Ok(text), t, RtText(rts[i + 1..]));
      text := text + t.value;
    }
    assert rts[|rts|..] == [];
    assert text + "" == text;
    r := Ok(text);
  }

  // -----------------------------------------------------------------------
  // One message, and the receive loop
  // -----------------------------------------------------------------------

  /** `x == "result"` on a value `.get` returned. */
  function IsResultTag(o: Outcome<Json>): bool
  {
    o == Ok(JStr("result"))
  }

  /** The inner try block: `data` (re-parsed when it is a string) down to
      the callback. Any exception yields nothing. */
  function ResultOf(data: Json, parse: string -> Option<Json>): Handled
  {
    var d := if data.JStr? then parse(data.s) else Some(data);
    if d.None? then Nothing
    else
      var cn := Get(d.value, "cn", JObj([]));
      if cn.Raised? then Nothing
      else
        var st := Get(cn.value, "st", JObj([]));
        if st.Raised? then Nothing
        else
          var typeVal := Get(st.value, "type", JNull);
          var text := StText(st.value);
          if typeVal.Raised? || text.Raised? || text.value == "" then Nothing
          else Emit(TextResult(text.value, typeVal.value == JStr("0")))
  }

  /** One pass of receive_msg's loop on a frame. `parse` stands for json.loads
      (None when it raises). An unparsable frame or one that is not an object
      raises outside the inner handler and ends the loop. */
  function HandleFrame(raw: string, parse: string -> Option<Json>): Handled
  {
    var m := parse(raw);
    if m.None? || !m.value.JObj? then Halt
    else if !(IsResultTag(Get(m.value, "msg_type", JNull)) || IsResultTag(Get(m.value, "action", JNull))) then Nothing
    else
      var data := Get(m.value, "data", JNull).value;
      if !Truthy(data) then Nothing else ResultOf(data, parse)
  }

  /** The callbacks the receive loop makes for a sequence of socket events. */
  function Received(ins: seq<Incoming>, parse: string -> Option<Json>): seq<Payload>
  {
    if ins == [] then []
    else match ins[0]
      case ConnectionClosed => []
      case Frame(raw) =>
        match HandleFrame(raw, parse)
        case Halt => []
        case Nothing => Received(ins[1..], parse)
        case Emit(p) => [p] + Received(ins[1..], parse)
  }

  /** receive_msg: reads until the remote closes or a frame breaks the loop. */
  method ReceiveMsg(ins: seq<Incoming>, parse: string -> Option<Json>) returns (out: seq<Payload>)
    ensures out == Received(ins, parse)
  {
    out := [];
    var i := 0;
    while i < |ins|
      invariant 0 <= i <= |ins|
      invariant out + Received(ins[i..], parse) == Received(ins, parse)
      decreases |ins| - i
    {
      assert ins[i..][1..] == ins[i + 1..];
      if ins[i].ConnectionClosed? {
        break;
      }
      var h := HandleFrame(ins[i].raw, parse);
      if h.Halt? {
        break;
      }
      if h.Emit? {
        out := out + [h.payload];
      }
      i := i + 1;
    }
    if i < |ins| {
      assert out == Received(ins, parse);
    }
  }

  /** Every callback carries non-empty text, and is_final holds exactly when
      the st type is the string "0". Only result-tagged object frames with
      truthy data can produce one. */
  lemma HandleFrameSpec(raw: string, parse: string -> Option<Json>)
    ensures HandleFrame(raw, parse) == Halt <==> parse(raw).None? || !parse(raw).value.JObj?
    ensures HandleFrame(raw, parse).Emit? ==>
      var m := parse(raw).value;
      var data := Lookup(m.fields, "data").GetOr(JNull);
      var p := HandleFrame(raw, parse).payload;
      && (Lookup(m.fields, "msg_type") == Some(JStr("result")) || Lookup(m.fields, "action") == Some(JStr("result")))
      && Truthy(data)
      && p.text != ""
      && var d := if data.JStr? then parse(data.s).value else data;
         var st := Lookup(Lookup(d.fields, "cn").GetOr(JObj([])).fields, "st").GetOr(JObj([]));
         && StText(st) == Ok(p.text)
         && (p.isFinal <==> Lookup(st.fields, "type") == Some(JStr("0")))
  {
  }

  /** Nothing after the remote closes the socket is read. */
  lemma {:induction false} ReceivedStopsAtClose(ins: seq<Incoming>, parse: string -> Option<Json>, i: nat)
    requires i < |ins| && ins[i] == ConnectionClosed
    ensures Received(ins, parse) == Received(ins[..i], parse)
  {
    if i > 0 {
      assert ins[1..][i - 1] == ConnectionClosed;
      ReceivedStopsAtClose(ins[1..], parse, i - 1);
      assert ins[..i][1..] == ins[1..][..i - 1];
    }
  }

  /** At most one callback per frame. */
  lemma {:induction false} ReceivedBound(ins: seq<Incoming>, parse: string -> Option<Json>)
    ensures |Received(ins, parse)| <= |ins|
  {
    if ins != [] {
      ReceivedBound(ins[1..], parse);
    }
  }

  // -----------------------------------------------------------------------
  // Well-formed results, as an independent reference
  // -----------------------------------------------------------------------

  /** A candidate word: `{"w": text}`, or one without a "w" key. */
  function CwJson(w: Option<string>): Json
  {
    match w
    case Some(s) => JObj([("w", JStr(s))])
    case None => JObj([("wp", JStr("n"))])
  }

  function WsItemJson(cws: seq<Option<string>>): Json
  {
    JObj([("cw", JArr(seq(|cws|, i requires 0 <= i < |cws| => CwJson(cws[i]))))])
  }

  function RtJson(items: seq<seq<Option<string>>>): Json
  {
    JObj([("ws", JArr(seq(|items|, i requires 0 <= i < |items| => WsItemJson(items[i]))))])
  }

  /** A well-formed st dict with the given type and rt entries. */
  function StJson(kind: string, rts: seq<seq<seq<Option<string>>>>): Json
  {
    JObj([("type", JStr(kind)), ("rt", JArr(seq(|rts|, i requires 0 <= i < |rts| => RtJson(rts[i]))))])
  }

  /** The words that are present, in order. */
  function Present(ws: seq<Option<string>>): string
  {
    if ws == [] then "" else (if ws[0].Some? then ws[0].value else "") + Present(ws[1..])
  }

  function PresentItems(items: seq<seq<Option<string>>>): string
  {
    if items == [] then "" else Present(items[0]) + PresentItems(items[1..])
  }

  function PresentRts(rts: seq<seq<seq<Option<string>>>>): string
  {
    if rts == [] then "" else PresentItems(rts[0]) + PresentRts(rts[1..])
  }

  lemma {:induction false} CwsTextWellFormed(ws: seq<Option<string>>)
    ensures CwsText(seq(|ws|, i requires 0 <= i < |ws| => CwJson(ws[i]))) == Ok(Present(ws))
  {
    if ws != [] {
      var js := seq(|ws|, i requires 0 <= i < |ws| => CwJson(ws[i]));
      assert js[1..] == seq(|ws[1..]|, i requires 0 <= i < |ws[1..]| => CwJson(ws[1..][i]));
      CwsTextWellFormed(ws[1..]);
      assert "w" != "wp";
    }
  }

  lemma {:induction false} WsTextWellFormed(items: seq<seq<Option<string>>>)
    ensures WsText(seq(|items|, i requires 0 <= i < |items| => WsItemJson(items[i]))) == Ok(PresentItems(items))
  {
    if items != [] {
      var js := seq(|items|, i requires 0 <= i < |items| => WsItemJson(items[i]));
      assert js[1..] == seq(|items[1..]|, i requires 0 <= i < |items[1..]| => WsItemJson(items[1..][i]));
      WsTextWellFormed(items[1..]);
      CwsTextWellFormed(items[0]);
    }
  }

  lemma {:induction false} RtTextWellFormed(rts: seq<seq<seq<Option<string>>>>)
    ensures RtText(seq(|rts|, i requires 0 <= i < |rts| => RtJson(rts[i]))) == Ok(PresentRts(rts))
  {
    if rts != [] {
      var js := seq(|rts|, i requires 0 <= i < |rts| => RtJson(rts[i]));
      assert js[1..] == seq(|rts[1..]|, i requires 0 <= i < |rts[1..]| => RtJson(rts[1..][i]));
      RtTextWellFormed(rts[1..]);
      WsTextWellFormed(rts[0]);
    }
  }

  /** On a well-formed st dict the extracted text is the in-order
      concatenation of every present `w`, and entries without one are skipped. */
  lemma StTextWellFormed(kind: string, rts: seq<seq<seq<Option<string>>>>)
    ensures StText(StJson(kind, rts)) == Ok(PresentRts(rts))
  {
    RtTextWellFormed(rts);
    assert "type" != "rt";
  }

  /** A well-formed result frame: `{"action": "result", "data": {"cn": {"st": ...}}}`. */
  function ResultFrame(kind: string, rts: seq<seq<seq<Option<string>>>>): Json
  {
    JObj([("action", JStr("result")), ("data", JObj([("cn", JObj([("st", StJson(kind, rts))]))]))])
  }

  /** Such a frame yields one callback exactly when some word is present, with
      that text and is_final exactly for type "0". */
  lemma ResultFrameHandled(raw: string, parse: string -> Option<Json>, kind: string, rts: seq<seq<seq<Option<string>>>>)
    requires parse(raw) == Some(ResultFrame(kind, rts))
    ensures HandleFrame(raw, parse) ==
      (if PresentRts(rts) == "" then Nothing else Emit(TextResult(PresentRts(rts), kind == "0")))
  {
    StTextWellFormed(kind, rts);
    var m := ResultFrame(kind, rts);
    var st := StJson(kind, rts);
    var data := JObj([("cn", JObj([("st", st)]))]);
    assert "action" != "data" && "action" != "msg_type" && "data" != "msg_type";
    assert "type" != "rt" && "cn" != "st";
    assert Lookup(m.fields, "action") == Some(JStr("result"));
    assert Lookup(m.fields, "data") == Some(data);
    assert Get(data, "cn", JObj([])) == Ok(JObj([("st", st)]));
    assert Get(JObj([("st", st)]), "st", JObj([])) == Ok(st);
    assert |st.fields| == 2 && st.fields[1].0 == "rt";
    assert st.fields[..1] == [("type", JStr(kind))];
    assert Lookup(st.fields[..1], "type") == Some(JStr(kind));
    assert Lookup(st.fields, "type") == Some(JStr(kind));
    assert Get(st, "type", JNull) == Ok(JStr(kind));
    assert ResultOf(data, parse) ==
      (if PresentRts(rts) == "" then Nothing else Emit(TextResult(PresentRts(rts), JStr(kind) == JStr("0"))));
  }
}
