/** The chat page's transcript operations: handleSend's synchronous part,
    toggleReport, and the runSteps progress display. */
module ChatTranscript {
  import opened Common

  datatype Role = User | Agent

  /** A transcript entry; `showReport` stands for the optional flag, false when unset. */
  datatype Message = Message(id: int, role: Role, content: string, showReport: bool)

  /** The part of the page's state handleSend touches. */
  datatype ChatState = ChatState(messages: seq<Message>, input: string, isThinking: bool)

  /** `text || inputValue`: an explicit non-empty text wins over the input box. */
  function SendContent(text: Option<string>, input: string): string
  {
    if text.Some? && text.value != "" then text.value else input
  }

  /** handleSend up to the network call: a blank content is rejected; otherwise
      one user message is appended, the input cleared and thinking begins.
      `now` is Date.now(). */
  function HandleSend(st: ChatState, text: Option<string>, now: int): ChatState
  {
    var content := SendContent(text, st.input);
    if IsJsBlank(content) then st
    else ChatState(st.messages + [Message(now, User, content, false)], "", true)
  }

  /** Whitespace-only content changes nothing; any other content appends exactly
      one user message carrying it, keeps the earlier messages, clears the input. */
  lemma HandleSendSpec(st: ChatState, text: Option<string>, now: int)
    ensures var content := SendContent(text, st.input);
            var r := HandleSend(st, text, now);
            && (AllWhitespace(content, IsJsWhitespace) ==> r == st)
            && (!AllWhitespace(content, IsJsWhitespace) ==>
                  && |r.messages| == |st.messages| + 1
                  && r.messages[..|st.messages|] == st.messages
                  && r.messages[|st.messages|] == Message(now, User, content, false)
                  && r.input == "" && r.isThinking)
  {
    TrimEmptyIff(SendContent(text, st.input), IsJsWhitespace);
  }

  /** Flips showReport on one message (`{ ...m, showReport: !m.showReport }`). */
  function FlipReport(m: Message, id: int): Message
  {
    if m.id == id then m.(showReport := !m.showReport) else m
  }

  /** toggleReport(id). */
  function ToggleReport(ms: seq<Message>, id: int): (r: seq<Message>)
  {
    if ms == [] then [] else [FlipReport(ms[0], id)] + ToggleReport(ms[1..], id)
  }

  /** toggleReport keeps length and order, flips showReport exactly on the
      messages with that id, and never touches id, role or content. */
  lemma {:induction false} ToggleReportSpec(ms: seq<Message>, id: int)
    ensures |ToggleReport(ms, id)| == |ms|
    ensures forall i :: 0 <= i < |ms| ==>
      var r := ToggleReport(ms, id)[i];
      && r.id == ms[i].id && r.role == ms[i].role && r.content == ms[i].content
      && r.showReport == (if ms[i].id == id then !ms[i].showReport else ms[i].showReport)
  {
    if ms != [] {
      ToggleReportSpec(ms[1..], id);
      var r := ToggleReport(ms, id);
      assert r[1..] == ToggleReport(ms[1..], id);
    }
  }

  /** Toggling the same report twice restores the transcript. */
  lemma {:induction false} ToggleReportTwice(ms: seq<Message>, id: int)
    ensures ToggleReport(ToggleReport(ms, id), id) == ms
  {
    if ms != [] {
      ToggleReportTwice(ms[1..], id);
    }
  }

  // -----------------------------------------------------------------------
  // runSteps
  // -----------------------------------------------------------------------

  datatype Status = Pending | Active | Done

  datatype Step = Step(id: string, text: string, status: Status)

  /** The four thinking steps the page starts with. */
  const InitialSteps: seq<Step> := [
    Step("1", "理解用户意图", Pending),
    Step("2", "检索知识库", Pending),
    Step("3", "生成回答", Pending),
    Step("4", "完成", Pending)
  ]

  /** One iteration of runSteps' loop body: step `i` active, earlier ones done,
      later ones pending. */
  function MarkActive(steps: seq<Step>, i: int): (r: seq<Step>)
    ensures |r| == |steps|
    ensures forall k :: 0 <= k < |steps| ==>
      && r[k].id == steps[k].id && r[k].text == steps[k].text
      && r[k].status == (if k == i then Active else if k < i then Done else Pending)
  {
    seq(|steps|, k requires 0 <= k < |steps| =>
      steps[k].(status := if k == i then Active else if k < i then Done else Pending))
  }

  /** runSteps (the 600 ms pauses left out): walks the steps in order, each time
      re-deriving every status from its index. Afterwards every step but the
      last is done and the last one is still active: no iteration marks it done. */
  method RunSteps(steps: seq<Step>) returns (r: seq<Step>)
    ensures |r| == |steps|
    ensures forall k :: 0 <= k < |steps| ==> r[k].id == steps[k].id && r[k].text == steps[k].text
    ensures forall k :: 0 <= k < |steps| ==> r[k].status == (if k == |steps| - 1 then Active else Done)
  {
    r := steps;
    for i := 0 to |steps|
      invariant |r| == |steps|
      invariant forall k :: 0 <= k < |steps| ==> r[k].id == steps[k].id && r[k].text == steps[k].text
      invariant i == 0 ==> r == steps
      invariant i > 0 ==> forall k :: 0 <= k < |steps| ==> r[k].status == (if k == i - 1 then Active else if k < i - 1 then Done else Pending)
    {
      r := MarkActive(r, i);
    }
  }
}
