/** A request as it really runs: the prompt is appended and the request sent when the user
    presses Send, and the reply (or the rollback) is applied later by the worker thread.
    Meanwhile only the entry field and the send button are disabled; New Chat and the chat
    buttons still work. The worker appends to whatever conversation is current when it
    finishes, so a chat switch during a request files the reply under the wrong
    conversation. `FinishAsWritten` models that; `FinishAtOrigin` applies the outcome to the
    conversation the prompt was sent from. */
module InFlight {

  import opened Options
  import opened Strings
  import opened Messages
  import opened Titles
  import opened Sessions

  /** A request in flight: the prompt sent and the index of the conversation it was sent
      from. */
  datatype Request = Request(prompt: string, origin: nat)

  /** The store together with the request in flight, if any (the send button is disabled
      exactly while there is one). */
  datatype Window = Window(store: Store, request: Option<Request>)

  predicate Sound(w: Window) {
    Ready(w.store) && (w.request.Some? ==> w.request.value.origin < |w.store.chats|)
  }

  /** What the user and the worker thread can do. */
  datatype Action =
    | Press(timestamp: string)
    | Pick(index: int, timestamp: string)
    | Enter(input: string)
    | Finish(outcome: Outcome)

  /** `send_message_event` and the worker's first append: name an empty placeholder chat
      after the prompt, append the prompt, and start the request. An empty prompt, or a
      send while a request is in flight, does nothing. */
  function Begin(w: Window, input: string): (r: Window)
    requires Sound(w)
    ensures Sound(r)
    ensures |r.store.chats| == |w.store.chats| && r.store.current == w.store.current
    ensures forall j :: 0 <= j < |w.store.chats| && j != w.store.current ==> r.store.chats[j] == w.store.chats[j]
    ensures Strip(input) == [] || w.request.Some? ==> r == w
    ensures Strip(input) != [] && w.request.None? ==>
      var before := w.store.chats[w.store.current];
      var after := r.store.chats[w.store.current];
      && r.request == Some(Request(Strip(input), w.store.current))
      && after.history == before.history + [UserMessage(Strip(input))]
      && after.title == NameFromPrompt(before, Strip(input)).title
  {
    var prompt := Strip(input);
    if prompt == [] || w.request.Some? then w
    else
      var st := w.store;
      Window(st.(chats := st.chats[st.current := Ask(st.chats[st.current], prompt)]), Some(Request(prompt, st.current)))
  }

  /** The conversation named after the prompt if it was an empty placeholder, with the
      prompt appended. */
  function Ask(c: Conversation, prompt: string): (r: Conversation)
    ensures r.history == c.history + [UserMessage(prompt)]
    ensures r.title == NameFromPrompt(c, prompt).title
  {
    var named := NameFromPrompt(c, prompt);
    named.(history := named.history + [UserMessage(prompt)])
  }

  /** The worker's last step on conversation `target`: append the reply, or drop a
      trailing prompt. */
  function Complete(st: Store, target: nat, outcome: Outcome): (r: Store)
    requires Ready(st) && target < |st.chats|
    ensures Ready(r) && |r.chats| == |st.chats| && r.current == st.current
    ensures forall j :: 0 <= j < |st.chats| && j != target ==> r.chats[j] == st.chats[j]
    ensures r.chats[target].title == st.chats[target].title
    ensures outcome.Reply? ==> r.chats[target].history == st.chats[target].history + [ModelMessage(outcome.text)]
    ensures outcome.Failed? ==> r.chats[target].history == Rollback(st.chats[target].history)
  {
    var c := st.chats[target];
    var history := match outcome
      case Reply(text) => c.history + [ModelMessage(text)]
      case Failed(_) => Rollback(c.history);
    st.(chats := st.chats[target := c.(history := history)])
  }

  /** `get_gemini_response` as written: `self.conversation_history` is read when the worker
      finishes, so the outcome lands in the conversation current at that moment. */
  function FinishAsWritten(w: Window, outcome: Outcome): (r: Window)
    requires Sound(w)
    ensures Sound(r) && r.request == None
    ensures w.request.Some? ==> r.store == Complete(w.store, w.store.current, outcome)
  {
    if w.request.None? then w
    else Window(Complete(w.store, w.store.current, outcome), None)
  }

  /** The outcome lands in the conversation the prompt was sent from. */
  function FinishAtOrigin(w: Window, outcome: Outcome): (r: Window)
    requires Sound(w)
    ensures Sound(r) && r.request == None
    ensures w.request.Some? ==> r.store == Complete(w.store, w.request.value.origin, outcome)
  {
    if w.request.None? then w
    else Window(Complete(w.store, w.request.value.origin, outcome), None)
  }

  /** The actions other than the worker finishing. A chat button exists for every
      conversation, so an out-of-range pick is treated as no action. */
  function Interact(w: Window, a: Action): (r: Window)
    requires Sound(w) && !a.Finish?
    ensures Sound(r) && (!a.Enter? ==> r.request == w.request)
    ensures |r.store.chats| >= |w.store.chats|
  {
    match a
    case Press(timestamp) => w.(store := NewChat(w.store, timestamp, false))
    case Pick(index, timestamp) =>
      if 0 <= index < |w.store.chats| then w.(store := LoadChat(w.store, index, timestamp)) else w
    case Enter(input) => Begin(w, input)
  }

  function StepAsWritten(w: Window, a: Action): (r: Window)
    requires Sound(w)
    ensures Sound(r)
  {
    if a.Finish? then FinishAsWritten(w, a.outcome) else Interact(w, a)
  }

  function Step(w: Window, a: Action): (r: Window)
    requires Sound(w)
    ensures Sound(r)
  {
    if a.Finish? then FinishAtOrigin(w, a.outcome) else Interact(w, a)
  }

  /** The window right after start-up. */
  function Start(): (r: Window)
    ensures Sound(r) && r.request == None
  {
    Window(Run([]), None)
  }

  // ---------------------------------------------------------------------------
  // With nothing in between, both finish the way the atomic `Send` does

  /** The store with the current conversation asked `prompt`. */
  function WithPrompt(st: Store, prompt: string): Store
    requires Ready(st)
  {
    st.(chats := st.chats[st.current := Ask(st.chats[st.current], prompt)])
  }

  /** The store with the current conversation named after `prompt` and given the turn. */
  function WithTurn(st: Store, prompt: string, outcome: Outcome): Store
    requires Ready(st)
  {
    var named := NameFromPrompt(st.chats[st.current], prompt);
    st.(chats := st.chats[st.current := named.(history := Turn(named.history, prompt, outcome))])
  }

  /** Sending while no request is in flight asks the current conversation and starts a
      request from it. */
  lemma BeginIdle(st: Store, input: string)
    requires Ready(st) && Strip(input) != []
    ensures Begin(Window(st, None), input) == Window(WithPrompt(st, Strip(input)), Some(Request(Strip(input), st.current)))
  {
  }

  /** Completing a request on the conversation it was just asked in does to the store what
      the atomic `Send` does. */
  lemma AskThenComplete(st: Store, prompt: string, outcome: Outcome)
    requires Ready(st)
    ensures Complete(WithPrompt(st, prompt), st.current, outcome) == WithTurn(st, prompt, outcome)
  {
    var r := Complete(WithPrompt(st, prompt), st.current, outcome);
    var s := WithTurn(st, prompt, outcome);
    assert r.chats[st.current] == s.chats[st.current] by {
      RollbackUndoesPrompt(st.chats[st.current].history, prompt);
    }
    assert r.chats == s.chats;
  }

  lemma BeginThenFinish(st: Store, input: string, outcome: Outcome)
    requires Ready(st)
    ensures FinishAsWritten(Begin(Window(st, None), input), outcome).store == Send(st, input, true, outcome)
    ensures FinishAtOrigin(Begin(Window(st, None), input), outcome).store == Send(st, input, true, outcome)
  {
    var prompt := Strip(input);
    if prompt != [] {
      BeginIdle(st, input);
      assert Send(st, input, true, outcome) == WithTurn(st, prompt, outcome);
      AskThenComplete(st, prompt, outcome);
    }
  }

  // ---------------------------------------------------------------------------
  // The reply filed under the wrong conversation

  /** The window after sending `prompt` from a fresh one, while the request is in flight. */
  function Asked(prompt: string): Window {
    Window(Store([Conversation(Truncate(prompt), [UserMessage(prompt)])], 0), Some(Request(prompt, 0)))
  }

  /** ... and after pressing New Chat before the request finishes. */
  function AskedThenNewChat(prompt: string): Window {
    Window(Store([Conversation(Truncate(prompt), [UserMessage(prompt)]), Conversation("New Chat 2", [])], 1),
           Some(Request(prompt, 0)))
  }

  /** The fresh conversation asked `prompt` is named after it and holds it. */
  lemma AskFresh(prompt: string)
    ensures Ask(Conversation("New Chat 1", []), prompt) == Conversation(Truncate(prompt), [UserMessage(prompt)])
  {
    var c := Conversation("New Chat 1", []);
    FirstPlaceholder();
    assert NameFromPrompt(c, prompt) == Conversation(Truncate(prompt), []);
    assert [] + [UserMessage(prompt)] == [UserMessage(prompt)];
  }

  /** Sending from a fresh window names its conversation after the prompt and appends it. */
  lemma FreshSend(input: string)
    requires Strip(input) != []
    ensures Interact(Start(), Enter(input)) == Asked(Strip(input))
  {
    var w := Window(Store([Conversation("New Chat 1", [])], 0), None);
    assert Start() == w by {
      StartUp();
    }
    InteractEnter(w, input);
    BeginFresh(input);
  }

  lemma InteractEnter(w: Window, input: string)
    requires Sound(w)
    ensures Interact(w, Enter(input)) == Begin(w, input)
  {
  }

  lemma BeginFresh(input: string)
    requires Strip(input) != []
    ensures Begin(Window(Store([Conversation("New Chat 1", [])], 0), None), input) == Asked(Strip(input))
  {
    BeginSingle(Conversation("New Chat 1", []), input);
    AskFresh(Strip(input));
  }

  /** Sending from an idle window of one conversation asks in that conversation. */
  lemma BeginSingle(c: Conversation, input: string)
    requires Strip(input) != []
    ensures Begin(Window(Store([c], 0), None), input) == Window(Store([Ask(c, Strip(input))], 0), Some(Request(Strip(input), 0)))
  {
    BeginIdle(Store([c], 0), input);
  }

  /** Pressing New Chat while the first request is in flight keeps the first conversation
      as it is (its title already comes from the prompt) and adds `New Chat 2`. */
  lemma NewChatWhileAsking(prompt: string, timestamp: string)
    requires prompt != []
    ensures Interact(Asked(prompt), Press(timestamp)) == AskedThenNewChat(prompt)
  {
    var c := Conversation(Truncate(prompt), [UserMessage(prompt)]);
    assert Speaks(c.history[0]) && FirstText(c.history[0].parts) == Some(prompt);
    assert FirstUserText(c.history) == Some(prompt);
    assert Finalize(c, timestamp) == c;
    assert Decimal(2) == "2";
    assert PlaceholderTitle(2) == "New Chat 2";
    var w := Interact(Asked(prompt), Press(timestamp));
    assert w.store.chats == [c, Conversation("New Chat 2", [])];
  }

  /** Sending a prompt from a fresh window and pressing New Chat while the request is in
      flight, whichever way requests finish. */
  lemma SentThenNewChat(input: string, timestamp: string)
    requires Strip(input) != []
    ensures StepAsWritten(StepAsWritten(Start(), Enter(input)), Press(timestamp)) == AskedThenNewChat(Strip(input))
    ensures Step(Step(Start(), Enter(input)), Press(timestamp)) == AskedThenNewChat(Strip(input))
  {
    FreshSend(input);
    NewChatWhileAsking(Strip(input), timestamp);
    var w1 := Interact(Start(), Enter(input));
    assert StepAsWritten(Start(), Enter(input)) == w1 == Step(Start(), Enter(input));
    assert StepAsWritten(w1, Press(timestamp)) == Interact(w1, Press(timestamp)) == Step(w1, Press(timestamp));
  }

  /** Finishing the request from `AskedThenNewChat(prompt)` as written: the outcome lands in
      the new conversation. */
  lemma FinishAsWrittenAfterNewChat(prompt: string, outcome: Outcome)
    requires prompt != []
    ensures var asked := Conversation(Truncate(prompt), [UserMessage(prompt)]);
            var added := Conversation("New Chat 2", []);
            FinishAsWritten(AskedThenNewChat(prompt), outcome).store.chats
              == if outcome.Reply? then [asked, added.(history := [ModelMessage(outcome.text)])] else [asked, added]
  {
    var w := AskedThenNewChat(prompt);
    var r := Complete(w.store, 1, outcome);
    assert FinishAsWritten(w, outcome).store == r;
    assert r.chats[0] == w.store.chats[0];
    match outcome
    case Reply(text) =>
      assert [] + [ModelMessage(text)] == [ModelMessage(text)];
    case Failed(_) =>
  }

  /** Finishing the request from `AskedThenNewChat(prompt)` at its origin: the outcome lands
      in the first conversation. */
  lemma FinishAtOriginAfterNewChat(prompt: string, outcome: Outcome)
    requires prompt != []
    ensures FinishAtOrigin(AskedThenNewChat(prompt), outcome).store.chats
              == [Conversation(Truncate(prompt), Turn([], prompt, outcome)), Conversation("New Chat 2", [])]
  {
    var w := AskedThenNewChat(prompt);
    var r := Complete(w.store, 0, outcome);
    assert FinishAtOrigin(w, outcome).store == r;
    assert r.chats[1] == w.store.chats[1];
    assert r.chats[0].history == Turn([], prompt, outcome) by {
      RollbackUndoesPrompt([], prompt);
      assert [] + [UserMessage(prompt)] == [UserMessage(prompt)];
    }
  }

  lemma ReplyAloneUnconfirmed(reply: string)
    ensures !Confirmed([ModelMessage(reply)])
  {
    assert !IsPrompt([ModelMessage(reply)][0]);
  }

  lemma PromptAloneUnconfirmed(prompt: string)
    ensures !Confirmed([UserMessage(prompt)])
  {
  }

  lemma TurnConfirmed(prompt: string, outcome: Outcome)
    requires prompt != []
    ensures Confirmed(Turn([], prompt, outcome))
  {
    if outcome.Reply? {
      ConfirmedExtend([], prompt, outcome.text);
    }
  }

  lemma PairInv(st: Store)
    requires |st.chats| == 2 && 0 <= st.current < 2
    requires Confirmed(st.chats[0].history) && Confirmed(st.chats[1].history)
    ensures Inv(st)
  {
  }

  /** ... and then receiving a reply: the first conversation keeps a prompt without a reply,
      and the new one starts with a reply to a prompt it never had. */
  lemma MisfiledReply(input: string, timestamp: string, reply: string)
    requires Strip(input) != []
    ensures var w := StepAsWritten(StepAsWritten(StepAsWritten(Start(), Enter(input)), Press(timestamp)), Finish(Reply(reply)));
            && w.store.chats == [Conversation(Truncate(Strip(input)), [UserMessage(Strip(input))]),
                                 Conversation("New Chat 2", [ModelMessage(reply)])]
            && !Inv(w.store)
  {
    SentThenNewChat(input, timestamp);
    var asked := AskedThenNewChat(Strip(input));
    FinishAsWrittenAfterNewChat(Strip(input), Reply(reply));
    var w := FinishAsWritten(asked, Reply(reply));
    assert StepAsWritten(asked, Finish(Reply(reply))) == w;
    ReplyAloneUnconfirmed(reply);
    assert w.store.chats[1].history == [ModelMessage(reply)];
  }

  /** ... or then seeing the request fail: the rollback looks at the new, empty conversation,
      so the prompt stays in the first one without a reply. */
  lemma OrphanedPrompt(input: string, timestamp: string, why: Failure)
    requires Strip(input) != []
    ensures var w := StepAsWritten(StepAsWritten(StepAsWritten(Start(), Enter(input)), Press(timestamp)), Finish(Failed(why)));
            && w.store.chats == [Conversation(Truncate(Strip(input)), [UserMessage(Strip(input))]), Conversation("New Chat 2", [])]
            && !Inv(w.store)
  {
    SentThenNewChat(input, timestamp);
    var asked := AskedThenNewChat(Strip(input));
    FinishAsWrittenAfterNewChat(Strip(input), Failed(why));
    var w := FinishAsWritten(asked, Failed(why));
    assert StepAsWritten(asked, Finish(Failed(why))) == w;
    PromptAloneUnconfirmed(Strip(input));
    assert w.store.chats[0].history == [UserMessage(Strip(input))];
  }

  /** The same actions with the outcome applied at the origin: the first conversation holds
      the whole exchange, or nothing when the request failed, and the new one stays empty. */
  lemma FiledAtOrigin(input: string, timestamp: string, outcome: Outcome)
    requires Strip(input) != []
    ensures var w := Step(Step(Step(Start(), Enter(input)), Press(timestamp)), Finish(outcome));
            var prompt := Strip(input);
            && w.store.chats[0] == Conversation(Truncate(prompt), if outcome.Reply? then [UserMessage(prompt), ModelMessage(outcome.text)] else [])
            && w.store.chats[1] == Conversation("New Chat 2", [])
            && Inv(w.store)
  {
    SentThenNewChat(input, timestamp);
    var asked := AskedThenNewChat(Strip(input));
    FinishAtOriginAfterNewChat(Strip(input), outcome);
    var w := FinishAtOrigin(asked, outcome);
    assert Step(asked, Finish(outcome)) == w;
    TurnConfirmed(Strip(input), outcome);
    assert Confirmed([]);
    PairInv(w.store);
  }

  // ---------------------------------------------------------------------------
  // With the outcome applied at the origin, every history stays made of completed turns

  /** The history of the conversation a request was sent from: completed turns, then the
      prompt in flight. */
  predicate Asking(history: seq<Message>, prompt: string) {
    history != [] && Confirmed(history[..|history| - 1]) && history[|history| - 1] == UserMessage(prompt)
    && prompt != []
  }

  /** Idle, every history holds completed turns; busy, so does every history but the
      origin's, which holds completed turns and the prompt in flight. */
  predicate WindowInv(w: Window) {
    Sound(w)
    && match w.request
       case None => Inv(w.store)
       case Some(req) =>
         && Asking(w.store.chats[req.origin].history, req.prompt)
         && forall j :: 0 <= j < |w.store.chats| && j != req.origin ==> Confirmed(w.store.chats[j].history)
  }

  /** Leaving, creating or picking a conversation changes no history. */
  lemma SwitchKeepsHistories(w: Window, a: Action)
    requires Sound(w) && (a.Press? || a.Pick?)
    ensures var r := Interact(w, a);
            r.request == w.request
            && forall j :: 0 <= j < |w.store.chats| ==> r.store.chats[j].history == w.store.chats[j].history
    ensures var r := Interact(w, a);
            forall j :: |w.store.chats| <= j < |r.store.chats| ==> r.store.chats[j].history == []
  {
  }

  lemma SwitchKeepsWindowInv(w: Window, a: Action)
    requires WindowInv(w) && (a.Press? || a.Pick?)
    ensures WindowInv(Interact(w, a))
  {
    var r := Interact(w, a);
    SwitchKeepsHistories(w, a);
    forall j | 0 <= j < |r.store.chats|
      ensures w.request.None? || j != w.request.value.origin ==> Confirmed(r.store.chats[j].history)
    {
      if j < |w.store.chats| {
        assert r.store.chats[j].history == w.store.chats[j].history;
      } else {
        assert r.store.chats[j].history == [];
      }
    }
  }

  lemma BeginKeepsWindowInv(w: Window, input: string)
    requires WindowInv(w)
    ensures WindowInv(Begin(w, input))
  {
    var r := Begin(w, input);
    if Strip(input) != [] && w.request.None? {
      var h := w.store.chats[w.store.current].history;
      var h' := r.store.chats[w.store.current].history;
      assert h'[..|h'| - 1] == h;
      forall j | 0 <= j < |r.store.chats| && j != w.store.current
        ensures Confirmed(r.store.chats[j].history)
      {
        assert r.store.chats[j] == w.store.chats[j];
      }
    }
  }

  lemma FinishKeepsWindowInv(w: Window, outcome: Outcome)
    requires WindowInv(w)
    ensures WindowInv(FinishAtOrigin(w, outcome))
  {
    if w.request.Some? {
      var req := w.request.value;
      var h := w.store.chats[req.origin].history;
      var r := FinishAtOrigin(w, outcome);
      var before := h[..|h| - 1];
      assert h == before + [UserMessage(req.prompt)];
      match outcome
      case Reply(text) =>
        ConfirmedExtend(before, req.prompt, text);
        assert r.store.chats[req.origin].history == before + [UserMessage(req.prompt), ModelMessage(text)];
      case Failed(_) =>
        RollbackUndoesPrompt(before, req.prompt);
      forall j | 0 <= j < |r.store.chats|
        ensures Confirmed(r.store.chats[j].history)
      {
        if j != req.origin {
          assert r.store.chats[j] == w.store.chats[j];
        }
      }
    }
  }

  lemma StepKeepsWindowInv(w: Window, a: Action)
    requires WindowInv(w)
    ensures WindowInv(Step(w, a))
  {
    match a
    case Finish(outcome) => FinishKeepsWindowInv(w, outcome);
    case Enter(input) => BeginKeepsWindowInv(w, input);
    case Press(_) => SwitchKeepsWindowInv(w, a);
    case Pick(_, _) => SwitchKeepsWindowInv(w, a);
  }

  function RunFrom(w: Window, actions: seq<Action>): (r: Window)
    requires Sound(w)
    ensures Sound(r)
    decreases |actions|
  {
    if actions == [] then w else RunFrom(Step(w, actions[0]), actions[1..])
  }

  /** Whatever the user does while requests are in flight, whenever none is, every
      conversation holds only completed turns. */
  lemma {:induction false} RunKeepsWindowInv(w: Window, actions: seq<Action>)
    requires WindowInv(w)
    ensures WindowInv(RunFrom(w, actions))
    ensures RunFrom(w, actions).request.None? ==> Inv(RunFrom(w, actions).store)
    decreases |actions|
  {
    if actions != [] {
      StepKeepsWindowInv(w, actions[0]);
      RunKeepsWindowInv(Step(w, actions[0]), actions[1..]);
    }
  }

  lemma StartInv()
    ensures WindowInv(Start())
  {
    RunKeepsInv([]);
  }

}
