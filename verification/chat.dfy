/** The chat panel's transcript machine. Typing, the Enter key, the send
    button and the service's reply are events; the question sent to the
    service is returned as an output and its reply arrives later as an input.
    Message ids are left out. */
module Chat {
  import opened Common

  datatype Sender = User | Bot

  /** One bubble of the transcript. `data` is the reply's supporting data,
      carried as an opaque value. */
  datatype Message = Message(sender: Sender, text: string, data: Option<string>)

  /** The transcript, the input field and whether a reply is awaited. */
  datatype ChatState = ChatState(messages: seq<Message>, input: string, isLoading: bool)

  const Greeting :=
    "Hello! I can help you analyze luggage detection data. Ask me questions like "
    + "\"How many suitcases were detected?\" or \"What color was the abandoned luggage?\" "
    + "or \"When was luggage left unattended?\""
  const Apology := "Sorry, I encountered an error. Please try again."
  const FailureToast := "Failed to get response. Please try again."

  /** The panel as it mounts: the greeting alone. */
  function InitialChat(): (c: ChatState)
    ensures c.messages == [Message(Bot, Greeting, None)] && c.input == "" && !c.isLoading
  {
    ChatState([Message(Bot, Greeting, None)], "", false)
  }

  /** The input field's change handler. */
  function SetInput(c: ChatState, value: string): (r: ChatState)
    ensures r.input == value && r.messages == c.messages && r.isLoading == c.isLoading
  {
    c.(input := value)
  }

  /** `handleSend` up to its await: blank input (empty after trimming) does
      nothing; otherwise the untrimmed text is appended as the user's message,
      the field is cleared, loading starts, and that same text is the question
      sent. */
  function Send(c: ChatState): (r: (ChatState, Option<string>))
    ensures r.1.None? <==> AllWhitespace(c.input)
    ensures r.1.None? ==> r.0 == c
    ensures r.1.Some? ==>
              && r.1.value == c.input
              && r.0.messages == c.messages + [Message(User, c.input, None)]
              && r.0.input == ""
              && r.0.isLoading
  {
    TrimEmptyIffBlank(c.input);
    if Trim(c.input) == "" then (c, None)
    else (ChatState(c.messages + [Message(User, c.input, None)], "", true), Some(c.input))
  }

  /** What the awaited query produced. The supporting data is optional in a
      response, and a message without it shows no match count. */
  datatype Reply = Answered(answer: string, supportingData: Option<string>) | QueryFailed

  /** The rest of `handleSend`: one bot message is appended — the answer with
      its data, or the fixed apology together with an error toast — and
      loading ends. The field is left as the user has it now. */
  function Receive(c: ChatState, reply: Reply): (r: (ChatState, Option<string>))
    ensures |r.0.messages| == |c.messages| + 1 && r.0.messages[..|c.messages|] == c.messages
    ensures !r.0.isLoading && r.0.input == c.input
    ensures reply.Answered? ==>
              r.0.messages[|c.messages|] == Message(Bot, reply.answer, reply.supportingData)
              && r.1.None?
    ensures reply.QueryFailed? ==>
              r.0.messages[|c.messages|] == Message(Bot, Apology, None) && r.1 == Some(FailureToast)
  {
    match reply
    case Answered(answer, data) =>
      (ChatState(c.messages + [Message(Bot, answer, data)], c.input, false), None)
    case QueryFailed =>
      (ChatState(c.messages + [Message(Bot, Apology, None)], c.input, false), Some(FailureToast))
  }

  /** `handleKeyPress`: Enter without Shift sends; every other key, and
      Shift+Enter, leaves the state alone. */
  function KeyPress(c: ChatState, key: string, shift: bool): (r: (ChatState, Option<string>))
    ensures key == "Enter" && !shift ==> r == Send(c)
    ensures key != "Enter" || shift ==> r == (c, None)
  {
    if key == "Enter" && !shift then Send(c) else (c, None)
  }

  /** The send button, which is disabled while loading or while the field is
      blank. */
  function ClickSend(c: ChatState): (r: (ChatState, Option<string>))
    ensures r.1.Some? <==> !c.isLoading && !AllWhitespace(c.input)
    ensures r.1.None? ==> r.0 == c
  {
    if c.isLoading then (c, None) else Send(c)
  }

  /** One thing that can happen to the panel. */
  datatype Event =
    | Typed(value: string)
    | Pressed(key: string, shift: bool)
    | Clicked
    | Replied(reply: Reply)

  function Step(c: ChatState, e: Event): (r: ChatState)
    ensures |c.messages| <= |r.messages| <= |c.messages| + 1
    ensures r.messages[..|c.messages|] == c.messages
  {
    match e
    case Typed(v) => SetInput(c, v)
    case Pressed(k, sh) => KeyPress(c, k, sh).0
    case Clicked => ClickSend(c).0
    case Replied(reply) => Receive(c, reply).0
  }

  /** The state after a run of events, in order. */
  function Run(c: ChatState, events: seq<Event>): ChatState
    decreases |events|
  {
    if events == [] then c else Run(Step(c, events[0]), events[1..])
  }

  /** The transcript only grows, by appending: whatever was on screen stays
      on screen in place, and at most one message arrives per event. */
  lemma {:induction false} RunAppendsOnly(c: ChatState, events: seq<Event>)
    ensures var r := Run(c, events);
            && |c.messages| <= |r.messages| <= |c.messages| + |events|
            && r.messages[..|c.messages|] == c.messages
    decreases |events|
  {
    if events != [] {
      var c1 := Step(c, events[0]);
      RunAppendsOnly(c1, events[1..]);
      var r := Run(c1, events[1..]);
      assert r.messages[..|c.messages|] == r.messages[..|c1.messages|][..|c.messages|];
    }
  }

  /** Whatever happens, the greeting is still the first message. */
  lemma GreetingStaysFirst(events: seq<Event>)
    ensures var r := Run(InitialChat(), events);
            |r.messages| >= 1 && r.messages[0] == Message(Bot, Greeting, None)
  {
    RunAppendsOnly(InitialChat(), events);
    var r := Run(InitialChat(), events);
    assert r.messages[0] == r.messages[..1][0];
  }

  /** A question and its answer: typing, Enter, and the reply leave the
      greeting, the question and the answer, with the field empty and loading
      over. A whitespace-only question sends nothing. */
  lemma AskAndAnswer(q: string, answer: string, data: Option<string>)
    requires q == "How many suitcases?"
    ensures var c := Run(InitialChat(), [Typed(q), Pressed("Enter", false), Replied(Answered(answer, data))]);
            && c.messages == [Message(Bot, Greeting, None), Message(User, q, None),
                              Message(Bot, answer, data)]
            && c.input == "" && !c.isLoading
    ensures Send(SetInput(InitialChat(), "  ")).1.None?
  {
    var c0 := InitialChat();
    var c1 := SetInput(c0, q);
    assert !IsJsWhitespace(q[0]);
    var c2 := KeyPress(c1, "Enter", false).0;
    assert c2.messages == c0.messages + [Message(User, q, None)];
    var c3 := Receive(c2, Answered(answer, data)).0;
    var evs := [Typed(q), Pressed("Enter", false), Replied(Answered(answer, data))];
    assert Step(c0, evs[0]) == c1;
    assert Step(c1, evs[1..][0]) == c2;
    assert Step(c2, evs[1..][1..][0]) == c3;
    assert Run(c3, evs[1..][1..][1..]) == c3;
    assert Run(c2, evs[1..][1..]) == c3;
    assert Run(c1, evs[1..]) == c3;
    assert AllWhitespace("  ");
  }
}
