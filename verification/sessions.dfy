/** The conversation store of the chat window: the list of `{title, history}` records,
    the current index, and the three things the user can do to it (start a chat, pick a
    chat, send a prompt). A request to the service is one atomic step here: while it is in
    flight the send button and entry field are disabled. */
module Sessions {

  import opened Options
  import opened Strings
  import opened Messages
  import opened Titles

  datatype Conversation = Conversation(title: string, history: seq<Message>)

  /** `all_conversations` and `current_chat_index`; the aliased `conversation_history`
      is always `chats[current].history`. */
  datatype Store = Store(chats: seq<Conversation>, current: int)

  /** The store before the first chat is created. */
  const Empty: Store := Store([], -1)

  /** The index is -1 until a chat exists and a valid index afterwards. */
  predicate Valid(st: Store) {
    if |st.chats| == 0 then st.current == -1 else 0 <= st.current < |st.chats|
  }

  /** A store with a current conversation, as it is from the end of start-up on. */
  predicate Ready(st: Store) {
    Valid(st) && |st.chats| > 0
  }

  /** Gives a conversation the user is leaving its permanent title: only a non-empty
      conversation whose title is still a placeholder is renamed. */
  function Finalize(c: Conversation, timestamp: string): (r: Conversation)
    ensures r.history == c.history
    ensures r.title != c.title ==> IsPlaceholder(c.title) && c.history != []
    ensures IsPlaceholder(c.title) && c.history != [] ==> r.title == DeriveTitle(c.history, timestamp)
  {
    if c.history != [] && IsPlaceholder(c.title) then c.(title := DeriveTitle(c.history, timestamp))
    else c
  }

  /** Finalising an already finalised conversation changes nothing, whatever the clock says. */
  lemma FinalizeIdempotent(c: Conversation, t1: string, t2: string)
    ensures Finalize(Finalize(c, t1), t2) == Finalize(c, t1)
  {
    if c.history != [] && IsPlaceholder(c.title) {
      match FirstUserText(c.history)
      case Some(text) =>
        TruncateIdempotent(text);
      case None =>
    }
  }

  /** The bookkeeping done before switching away from the current conversation. */
  function Leave(st: Store, timestamp: string): (r: Store)
    requires Valid(st)
    ensures Valid(r) && |r.chats| == |st.chats| && r.current == st.current
    ensures forall j :: 0 <= j < |st.chats| && j != st.current ==> r.chats[j] == st.chats[j]
    ensures st.current >= 0 ==> r.chats[st.current] == Finalize(st.chats[st.current], timestamp)
  {
    if st.current != -1 && st.chats[st.current].history != [] then
      st.(chats := st.chats[st.current := Finalize(st.chats[st.current], timestamp)])
    else
      st
  }

  /** `new_chat`: finalise the conversation being left (not on the initial load), then append
      an empty conversation titled `New Chat <count + 1>` and make it current. */
  function NewChat(st: Store, timestamp: string, initialLoad: bool): (r: Store)
    requires Valid(st)
    ensures Ready(r) && |r.chats| == |st.chats| + 1 && r.current == |st.chats|
    ensures r.chats[|st.chats|] == Conversation(PlaceholderTitle(|st.chats| + 1), [])
    ensures forall j :: 0 <= j < |st.chats| ==> r.chats[j].history == st.chats[j].history
    ensures forall j :: 0 <= j < |st.chats| && j != st.current ==> r.chats[j] == st.chats[j]
    ensures st.current >= 0 ==>
      r.chats[st.current] == if initialLoad then st.chats[st.current] else Finalize(st.chats[st.current], timestamp)
  {
    var left := if initialLoad then st else Leave(st, timestamp);
    var chats := left.chats + [Conversation(PlaceholderTitle(|left.chats| + 1), [])];
    Store(chats, |chats| - 1)
  }

  /** `load_chat_session(index)`: picking the current chat does nothing; picking another
      finalises the one being left and makes `index` current. */
  function LoadChat(st: Store, index: int, timestamp: string): (r: Store)
    requires Valid(st) && 0 <= index < |st.chats|
    ensures Ready(r) && |r.chats| == |st.chats| && r.current == index
    ensures index == st.current ==> r == st
    ensures forall j :: 0 <= j < |st.chats| ==> r.chats[j].history == st.chats[j].history
    ensures forall j :: 0 <= j < |st.chats| && j != st.current ==> r.chats[j] == st.chats[j]
    ensures index != st.current && st.current >= 0 ==>
      r.chats[st.current] == Finalize(st.chats[st.current], timestamp)
  {
    if st.current == index then st
    else Leave(st, timestamp).(current := index)
  }

  /** Why a request failed, for the two failures the worker catches: a transport error,
      timeout or error status (`RequestException`), or a `KeyError`/`IndexError` while
      reading `candidates[0].content.parts[0].text`. */
  datatype Failure = NetworkError | MalformedResponse

  /** What the service returned for one request. */
  datatype Outcome = Reply(text: string) | Failed(why: Failure)

  /** Drops the trailing message when it is the user's; leaves any other history alone. */
  function Rollback(history: seq<Message>): (r: seq<Message>)
    ensures |r| <= |history| && r == history[..|r|]
    ensures |r| < |history| <==> history != [] && history[|history| - 1].role == User
    ensures |r| == if history != [] && history[|history| - 1].role == User then |history| - 1 else |history|
  {
    if history != [] && history[|history| - 1].role == User then history[..|history| - 1]
    else history
  }

  /** Rolling back right after appending a prompt restores the history exactly. */
  lemma RollbackUndoesPrompt(history: seq<Message>, prompt: string)
    ensures Rollback(history + [UserMessage(prompt)]) == history
  {
    assert (history + [UserMessage(prompt)])[..|history|] == history;
  }

  /** The title rule applied when a prompt is sent: an empty conversation with a placeholder
      title is named after the prompt right away. */
  function NameFromPrompt(c: Conversation, prompt: string): (r: Conversation)
    ensures r.history == c.history
    ensures r.title != c.title ==> c.history == [] && IsPlaceholder(c.title)
    ensures c.history == [] && IsPlaceholder(c.title) ==> r.title == Truncate(prompt)
  {
    if c.history == [] && IsPlaceholder(c.title) then c.(title := Truncate(prompt)) else c
  }

  /** The name a prompt gives an empty placeholder conversation is the one leaving it
      would give: once the prompt is in the history, finalising changes nothing. */
  lemma NameFromPromptFinal(c: Conversation, prompt: string, timestamp: string)
    requires c.history == [] && IsPlaceholder(c.title) && prompt != []
    ensures var asked := NameFromPrompt(c, prompt).(history := [UserMessage(prompt)]);
            Finalize(asked, timestamp) == asked
  {
    var h := [UserMessage(prompt)];
    assert Speaks(h[0]) && FirstText(h[0].parts) == Some(prompt);
    assert FirstUserText(h) == Some(prompt);
  }

  /** One request: the prompt is appended, then either the reply is appended after it or
      the trailing prompt is rolled back. */
  function Turn(history: seq<Message>, prompt: string, outcome: Outcome): (r: seq<Message>)
    ensures outcome.Reply? ==> r == history + [UserMessage(prompt), ModelMessage(outcome.text)]
    ensures outcome.Failed? ==> r == history
  {
    var asked := history + [UserMessage(prompt)];
    match outcome
    case Reply(text) => asked + [ModelMessage(text)]
    case Failed(_) =>
      RollbackUndoesPrompt(history, prompt);
      Rollback(asked)
  }

  /** `send_message_event` followed by the request it starts, as one step. `enabled` is the
      state of the send button. */
  function Send(st: Store, input: string, enabled: bool, outcome: Outcome): (r: Store)
    requires Ready(st)
    ensures Ready(r) && |r.chats| == |st.chats| && r.current == st.current
    ensures forall j :: 0 <= j < |st.chats| && j != st.current ==> r.chats[j] == st.chats[j]
    ensures Strip(input) == [] || !enabled ==> r == st
    ensures Strip(input) != [] && enabled ==>
      var before := st.chats[st.current];
      var after := r.chats[st.current];
      && (outcome.Reply? ==>
            after.history == before.history + [UserMessage(Strip(input)), ModelMessage(outcome.text)])
      && (outcome.Failed? ==> after.history == before.history)
      && (before.history == [] && IsPlaceholder(before.title) ==> after.title == Truncate(Strip(input)))
      && (before.history != [] || !IsPlaceholder(before.title) ==> after.title == before.title)
  {
    var prompt := Strip(input);
    if prompt == [] || !enabled then st else SendPrompt(st, prompt, outcome)
  }

  /** The request for an already stripped, non-empty prompt: name the conversation, then
      run the turn in it. */
  function SendPrompt(st: Store, prompt: string, outcome: Outcome): (r: Store)
    requires Ready(st) && prompt != []
    ensures Ready(r) && |r.chats| == |st.chats| && r.current == st.current
    ensures forall j :: 0 <= j < |st.chats| && j != st.current ==> r.chats[j] == st.chats[j]
    ensures var before := st.chats[st.current];
            var after := r.chats[st.current];
            && (outcome.Reply? ==>
                  after.history == before.history + [UserMessage(prompt), ModelMessage(outcome.text)])
            && (outcome.Failed? ==> after.history == before.history)
            && (before.history == [] && IsPlaceholder(before.title) ==> after.title == Truncate(prompt))
            && (before.history != [] || !IsPlaceholder(before.title) ==> after.title == before.title)
  {
    var named := NameFromPrompt(st.chats[st.current], prompt);
    var done := named.(history := Turn(named.history, prompt, outcome));
    st.(chats := st.chats[st.current := done])
  }

  /** What the user can do while no request is in flight. A chat button exists for every
      conversation, so an out-of-range pick does not occur; it is treated as no event. */
  datatype Event =
    | NewChatPressed(timestamp: string)
    | ChatPicked(index: int, timestamp: string)
    | PromptEntered(input: string, outcome: Outcome)

  function Step(st: Store, ev: Event): (r: Store)
    requires Ready(st)
    ensures Ready(r)
  {
    match ev
    case NewChatPressed(timestamp) => NewChat(st, timestamp, false)
    case ChatPicked(index, timestamp) =>
      if 0 <= index < |st.chats| then LoadChat(st, index, timestamp) else st
    case PromptEntered(input, outcome) => Send(st, input, true, outcome)
  }

  /** The store after start-up (`new_chat(initial_load=True)` on the empty store) and then
      the given events. */
  function Run(events: seq<Event>): (r: Store)
    ensures Ready(r)
  {
    if events == [] then NewChat(Empty, "", true)
    else Step(Run(events[..|events| - 1]), events[|events| - 1])
  }

  /** A history entry the send path appends for a prompt: one non-empty text part. */
  predicate IsPrompt(m: Message) {
    m.role == User && |m.parts| == 1 && m.parts[0].TextPart? && m.parts[0].text != []
  }

  /** A history entry the send path appends for a reply: one text part. */
  predicate IsReply(m: Message) {
    m.role == Model && |m.parts| == 1 && m.parts[0].TextPart?
  }

  /** A history made only of completed turns: prompt, reply, prompt, reply, ... */
  predicate Confirmed(history: seq<Message>) {
    |history| % 2 == 0
    && forall i :: 0 <= i < |history| ==> if i % 2 == 0 then IsPrompt(history[i]) else IsReply(history[i])
  }

  /** Every history in the store holds only completed turns. */
  predicate Inv(st: Store) {
    Ready(st) && forall j :: 0 <= j < |st.chats| ==> Confirmed(st.chats[j].history)
  }

  lemma NewChatKeepsInv(st: Store, timestamp: string)
    requires Inv(st)
    ensures Inv(NewChat(st, timestamp, false))
  {
    var r := NewChat(st, timestamp, false);
    forall j | 0 <= j < |r.chats|
      ensures Confirmed(r.chats[j].history)
    {
      if j < |st.chats| {
        assert r.chats[j].history == st.chats[j].history;
      }
    }
  }

  lemma LoadChatKeepsInv(st: Store, index: int, timestamp: string)
    requires Inv(st) && 0 <= index < |st.chats|
    ensures Inv(LoadChat(st, index, timestamp))
  {
    var r := LoadChat(st, index, timestamp);
    forall j | 0 <= j < |r.chats|
      ensures Confirmed(r.chats[j].history)
    {
      assert r.chats[j].history == st.chats[j].history;
    }
  }

  /** Appending a completed turn to a history of completed turns keeps it so. */
  lemma ConfirmedExtend(h: seq<Message>, prompt: string, reply: string)
    requires Confirmed(h) && prompt != []
    ensures Confirmed(h + [UserMessage(prompt), ModelMessage(reply)])
  {
    var h' := h + [UserMessage(prompt), ModelMessage(reply)];
    forall i | 0 <= i < |h'|
      ensures if i % 2 == 0 then IsPrompt(h'[i]) else IsReply(h'[i])
    {
      if i < |h| {
        assert h'[i] == h[i];
      }
    }
  }

  lemma SendKeepsInv(st: Store, input: string, outcome: Outcome)
    requires Inv(st)
    ensures Inv(Send(st, input, true, outcome))
  {
    var r := Send(st, input, true, outcome);
    if Strip(input) != [] && outcome.Reply? {
      ConfirmedExtend(st.chats[st.current].history, Strip(input), outcome.text);
    }
    forall j | 0 <= j < |r.chats|
      ensures Confirmed(r.chats[j].history)
    {
      if j != st.current {
        assert r.chats[j] == st.chats[j];
      }
    }
  }

  lemma StepKeepsInv(st: Store, ev: Event)
    requires Inv(st)
    ensures Inv(Step(st, ev))
  {
    match ev
    case NewChatPressed(timestamp) => NewChatKeepsInv(st, timestamp);
    case ChatPicked(index, timestamp) =>
      if 0 <= index < |st.chats| {
        LoadChatKeepsInv(st, index, timestamp);
      }
    case PromptEntered(input, outcome) => SendKeepsInv(st, input, outcome);
  }

  /** Every reachable store holds only completed turns: a failed request leaves no trace in
      any history. */
  lemma {:induction false} RunKeepsInv(events: seq<Event>)
    ensures Inv(Run(events))
  {
    if events != [] {
      RunKeepsInv(events[..|events| - 1]);
      StepKeepsInv(Run(events[..|events| - 1]), events[|events| - 1]);
    }
  }

  /** In a reachable store a non-empty conversation always has a user text to be named
      after, so the timestamp fallback of the title rule is never taken. This is the title
      finalising would give; the title the conversation carries may differ (see
      `RetryAfterFailure`). */
  lemma FallbackUnused(st: Store, j: int, timestamp: string)
    requires Inv(st) && 0 <= j < |st.chats| && st.chats[j].history != []
    ensures DeriveTitle(st.chats[j].history, timestamp) == Truncate(st.chats[j].history[0].parts[0].text)
  {
    var h := st.chats[j].history;
    assert IsPrompt(h[0]);
    assert FirstText(h[0].parts) == Some(h[0].parts[0].text);
    assert Speaks(h[0]);
  }

  /** A fresh window holds one empty conversation called `New Chat 1`. */
  lemma StartUp()
    ensures Run([]) == Store([Conversation("New Chat 1", [])], 0)
  {
    assert Decimal(1) == "1";
    assert PlaceholderTitle(1) == "New Chat 1";
  }

  /** Sending into the one empty conversation `New Chat 1` names it after the prompt. */
  lemma SendToFresh(input: string, outcome: Outcome)
    requires Strip(input) != []
    ensures var prompt := Strip(input);
            Send(Store([Conversation("New Chat 1", [])], 0), input, true, outcome).chats
              == [Conversation(Truncate(prompt), if outcome.Reply? then [UserMessage(prompt), ModelMessage(outcome.text)] else [])]
  {
    FirstPlaceholder();
    SendToSingle("New Chat 1", input, outcome);
  }

  /** The first turn of an empty history is the exchange, or nothing when it failed. */
  lemma FirstTurn(prompt: string, outcome: Outcome)
    ensures Turn([], prompt, outcome) == if outcome.Reply? then [UserMessage(prompt), ModelMessage(outcome.text)] else []
  {
    if outcome.Reply? {
      assert [] + [UserMessage(prompt), ModelMessage(outcome.text)] == [UserMessage(prompt), ModelMessage(outcome.text)];
    }
  }

  /** The first prompt sent after start-up names the only conversation after itself,
      whether or not the request succeeds. */
  lemma FreshChatExchange(input: string, outcome: Outcome)
    requires Strip(input) != []
    ensures var prompt := Strip(input);
            Send(Run([]), input, true, outcome).chats
              == [Conversation(Truncate(prompt), if outcome.Reply? then [UserMessage(prompt), ModelMessage(outcome.text)] else [])]
  {
    StartUp();
    SendToFresh(input, outcome);
  }

  /** Sending "Hello" (with any surrounding whitespace) into a fresh window, answered
      "Hi there". */
  lemma FirstExchange(input: string)
    requires Strip(input) == "Hello"
    ensures Send(Run([]), input, true, Reply("Hi there")).chats
              == [Conversation("Hello", [UserMessage("Hello"), ModelMessage("Hi there")])]
  {
    FreshChatExchange(input, Reply("Hi there"));
  }

  /** Sending "Hello" into a fresh window when the request fails, by timeout or otherwise:
      the history is empty again, while the title set on sending stays. */
  lemma FailedExchange(input: string, why: Failure)
    requires Strip(input) == "Hello"
    ensures Send(Run([]), input, true, Failed(why)).chats == [Conversation("Hello", [])]
  {
    FreshChatExchange(input, Failed(why));
  }

  /** A failed first send names the fresh conversation after its prompt, and the name stays:
      a retry that succeeds fills the history but renames the conversation only when the first
      name happens to start with `New Chat`. So a conversation's title need not be its first
      stored prompt. */
  lemma RetryAfterFailure(first: string, why: Failure, second: string, reply: string)
    requires !AllSpace(first) && !AllSpace(second)
    ensures var name := Truncate(Strip(first));
            Run([PromptEntered(first, Failed(why)), PromptEntered(second, Reply(reply))])
              == Store([Conversation(if IsPlaceholder(name) then Truncate(Strip(second)) else name,
                                     [UserMessage(Strip(second)), ModelMessage(reply)])], 0)
  {
    var e1, e2 := PromptEntered(first, Failed(why)), PromptEntered(second, Reply(reply));
    RunTwo(e1, e2);
    assert Run([e1]) == Store([Conversation(Truncate(Strip(first)), [])], 0) by {
      RunTwo(e1, e2);
      StartUp();
      FreshChatExchange(first, Failed(why));
    }
    SendToSingle(Truncate(Strip(first)), second, Reply(reply));
  }

  /** Two events after start-up are two steps. */
  lemma RunTwo(e1: Event, e2: Event)
    ensures Run([e1]) == Step(Run([]), e1)
    ensures Run([e1, e2]) == Step(Run([e1]), e2)
  {
    assert [e1, e2][..1] == [e1] && [e1][..0] == [];
  }

  /** Sending into a store whose one conversation is empty: the title rule, then the turn. */
  lemma SendToSingle(title: string, input: string, outcome: Outcome)
    requires Strip(input) != []
    ensures var prompt := Strip(input);
            Send(Store([Conversation(title, [])], 0), input, true, outcome)
              == Store([Conversation(if IsPlaceholder(title) then Truncate(prompt) else title,
                                     if outcome.Reply? then [UserMessage(prompt), ModelMessage(outcome.text)] else [])], 0)
  {
    var prompt := Strip(input);
    var c := Conversation(title, []);
    SendToOne(c, input, outcome);
    assert NameFromPrompt(c, prompt) == Conversation(if IsPlaceholder(title) then Truncate(prompt) else title, []);
    FirstTurn(prompt, outcome);
  }

  /** Sending into a store of one conversation replaces it with the named conversation
      after the turn. */
  lemma SendToOne(c: Conversation, input: string, outcome: Outcome)
    requires Strip(input) != []
    ensures var named := NameFromPrompt(c, Strip(input));
            Send(Store([c], 0), input, true, outcome)
              == Store([named.(history := Turn(named.history, Strip(input), outcome))], 0)
  {
  }

  /** Switching away from a conversation still called `New Chat 1` names it after its
      first prompt, cut to thirty characters. */
  lemma SwitchNamesLongPrompt(timestamp: string)
    ensures var prompt := "Plan my trip to Japan for two weeks";
            var st := Store([Conversation("New Chat 1", [UserMessage(prompt)]), Conversation("New Chat 2", [])], 0);
            LoadChat(st, 1, timestamp).chats[0].title == "Plan my trip to Japan for two ..."
  {
    var prompt := "Plan my trip to Japan for two weeks";
    var h := [UserMessage(prompt)];
    assert Speaks(h[0]);
    assert FirstUserText(h) == Some(prompt);
  }

}
