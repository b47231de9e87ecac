/** The personal page: the AI memory list with its delete button, and the
    persona-tone selector (a card that opens an overlay, an overlay closed by
    its backdrop, its X button or a choice). */
module Personal {
  import opened Common

  /** One remembered fact; the icon and colour are presentation only. */
  datatype Memory = Memory(id: int, category: string, content: string, timestamp: string)

  /** A persona tone as listed in TONE_MODES (its icon left out). */
  datatype Tone = Tone(id: string, name: string, color: string)

  const ToneModes: seq<Tone> := [
    Tone("calm", "专业冷静模式", "blue"),
    Tone("agile", "敏捷执行模式", "emerald"),
    Tone("creative", "深度推演模式", "orange"),
    Tone("balanced", "柔波共理模式", "purple")
  ]

  // -----------------------------------------------------------------------
  // deleteMemory
  // -----------------------------------------------------------------------

  function HasOtherId(id: int): Memory -> bool
  {
    (m: Memory) => m.id != id
  }

  /** deleteMemory(id): `memories.filter(m => m.id !== id)`. */
  function DeleteMemory(ms: seq<Memory>, id: int): seq<Memory>
  {
    Filter(ms, HasOtherId(id))
  }

  /** deleteMemory removes every memory with that id and nothing else: the
      rest keep their order and content, exactly one memory is lost per
      occurrence of the id, and an absent id changes nothing. */
  lemma DeleteMemorySpec(ms: seq<Memory>, id: int)
    ensures var r := DeleteMemory(ms, id);
            && IsSubsequence(r, ms)
            && (forall i :: 0 <= i < |r| ==> r[i].id != id)
            && (forall i :: 0 <= i < |ms| && ms[i].id != id ==> ms[i] in r)
            && |r| == |ms| - CountWhere(ms, (m: Memory) => m.id == id)
            && ((forall i :: 0 <= i < |ms| ==> ms[i].id != id) ==> r == ms)
  {
    FilterIsSubsequence(ms, HasOtherId(id));
    FilterLength(ms, HasOtherId(id));
    CountComplement(ms, id);
    if forall i :: 0 <= i < |ms| ==> ms[i].id != id {
      FilterKeepsAll(ms, HasOtherId(id));
    }
  }

  lemma {:induction false} CountComplement(ms: seq<Memory>, id: int)
    ensures CountWhere(ms, HasOtherId(id)) + CountWhere(ms, (m: Memory) => m.id == id) == |ms|
  {
    if ms != [] {
      CountComplement(ms[1..], id);
    }
  }

  /** Deleting is idempotent, and deletions of two ids commute. */
  lemma {:induction false} DeleteMemoryCommutes(ms: seq<Memory>, a: int, b: int)
    ensures DeleteMemory(DeleteMemory(ms, a), a) == DeleteMemory(ms, a)
    ensures DeleteMemory(DeleteMemory(ms, a), b) == DeleteMemory(DeleteMemory(ms, b), a)
  {
    if ms != [] {
      DeleteMemoryCommutes(ms[1..], a, b);
      var t := ms[1..];
      assert DeleteMemory(ms, a) == (if ms[0].id != a then [ms[0]] else []) + DeleteMemory(t, a);
      assert DeleteMemory(ms, b) == (if ms[0].id != b then [ms[0]] else []) + DeleteMemory(t, b);
      FilterAppend(if ms[0].id != a then [ms[0]] else [], DeleteMemory(t, a), HasOtherId(a));
      FilterAppend(if ms[0].id != a then [ms[0]] else [], DeleteMemory(t, a), HasOtherId(b));
      FilterAppend(if ms[0].id != b then [ms[0]] else [], DeleteMemory(t, b), HasOtherId(a));
    }
  }

  // -----------------------------------------------------------------------
  // The tone selector
  // -----------------------------------------------------------------------

  datatype ToneView = ToneView(currentTone: Tone, selectorOpen: bool)

  /** Closed, with the first tone current. */
  const InitialView: ToneView := ToneView(ToneModes[0], false)

  /** The clicks the page reacts to. */
  datatype ToneEvent = ToneCardClick | BackdropClick | CloseButtonClick | ToneClick(tone: Tone)

  /** The overlay (backdrop, X button, tone list) exists only while the selector
      is open; beneath it the tone card cannot be reached. */
  predicate Offered(v: ToneView, e: ToneEvent)
  {
    if e.ToneCardClick? then !v.selectorOpen else v.selectorOpen
  }

  /** One click: the card opens the selector, the backdrop and the X close it,
      and a choice (handleSelectTone) makes that tone current and closes it. */
  function ToneStep(v: ToneView, e: ToneEvent): ToneView
  {
    match e
    case ToneCardClick => v.(selectorOpen := true)
    case BackdropClick => v.(selectorOpen := false)
    case CloseButtonClick => v.(selectorOpen := false)
    case ToneClick(t) => ToneView(t, false)
  }

  function RunTone(v: ToneView, es: seq<ToneEvent>): ToneView
    decreases |es|
  {
    if es == [] then v else ToneStep(RunTone(v, es[..|es| - 1]), es[|es| - 1])
  }

  ghost predicate AllOffered(v: ToneView, es: seq<ToneEvent>)
    decreases |es|
  {
    es == [] || (AllOffered(v, es[..|es| - 1]) && Offered(RunTone(v, es[..|es| - 1]), es[|es| - 1]))
  }

  /** The tone picked by the last choice in `es`, or `d` when there is none. */
  function LastChoice(es: seq<ToneEvent>, d: Tone): Tone
    decreases |es|
  {
    if es == [] then d
    else if es[|es| - 1].ToneClick? then es[|es| - 1].tone
    else LastChoice(es[..|es| - 1], d)
  }

  /** Only the card opens the selector and only a choice changes the tone; the
      backdrop and the X close it without touching the tone. */
  lemma ToneStepSpec(v: ToneView, e: ToneEvent)
    ensures ToneStep(v, e).selectorOpen <==> e.ToneCardClick?
    ensures ToneStep(v, e).currentTone == (if e.ToneClick? then e.tone else v.currentTone)
  {
  }

  /** After any clicks the selector is open exactly when the last click was on
      the card (closed if there were none), and the current tone is the last
      one chosen (the first tone if none was). */
  lemma {:induction false} RunToneSpec(es: seq<ToneEvent>)
    ensures RunTone(InitialView, es).selectorOpen <==> (es != [] && es[|es| - 1].ToneCardClick?)
    ensures RunTone(InitialView, es).currentTone == LastChoice(es, ToneModes[0])
  {
    if es != [] {
      RunToneSpec(es[..|es| - 1]);
    }
  }

  /** In a session of clicks the page offers, clicks on the card and closing
      clicks (backdrop, X, a choice) alternate, and the tone shown is always one
      of TONE_MODES when every choice was taken from the list. */
  lemma {:induction false} RunToneFromList(es: seq<ToneEvent>)
    requires AllOffered(InitialView, es)
    requires forall i :: 0 <= i < |es| && es[i].ToneClick? ==> es[i].tone in ToneModes
    ensures RunTone(InitialView, es).currentTone in ToneModes
    ensures forall i :: 0 < i < |es| ==> (es[i].ToneCardClick? <==> !es[i - 1].ToneCardClick?)
  {
    if es != [] {
      var p := es[..|es| - 1];
      assert forall i :: 0 <= i < |p| && p[i].ToneClick? ==> p[i].tone in ToneModes by {
        forall i | 0 <= i < |p| ensures p[i] == es[i] {}
      }
      RunToneFromList(p);
      RunToneSpec(p);
      forall i | 0 < i < |es|
        ensures es[i].ToneCardClick? <==> !es[i - 1].ToneCardClick?
      {
        if i < |es| - 1 {
          assert es[i] == p[i] && es[i - 1] == p[i - 1];
        }
      }
    }
  }
}
