/** What the chat view shows. A request shows the prompt at once and then the reply or an
    error notice; loading a conversation redraws it from its stored history. */
module Display {

  import opened Strings
  import opened Messages
  import opened Segmenter
  import opened Sessions

  /** One entry of the chat view: a prompt (`You: ...`), a reply cut into segments
      (`Gemini: ...`), or an error notice, which is never stored. */
  datatype Entry = You(text: string) | Gemini(segments: seq<Segment>) | Notice(why: Failure)

  /** How a stored message is redrawn when its conversation is loaded: its text parts
      joined, a reply segmented as it was when it arrived. */
  function Shown(m: Message): Entry {
    match m.role
    case User => You(MessageText(m.parts))
    case Model => Gemini(Segments(MessageText(m.parts)))
  }

  /** The view after loading a conversation with this history. */
  function Transcript(history: seq<Message>): seq<Entry>
    decreases |history|
  {
    if history == [] then [] else [Shown(history[0])] + Transcript(history[1..])
  }

  lemma {:induction false} TranscriptAppend(a: seq<Message>, b: seq<Message>)
    ensures Transcript(a + b) == Transcript(a) + Transcript(b)
    decreases |a|
  {
    if a == [] {
      assert a + b == b;
    } else {
      assert (a + b)[1..] == a[1..] + b;
      TranscriptAppend(a[1..], b);
    }
  }

  /** What one request adds to the view while the conversation is open: the prompt, then
      the reply or the error notice. */
  function Live(prompt: string, outcome: Outcome): seq<Entry> {
    [You(prompt)] + match outcome
      case Reply(text) => [Gemini(Segments(text))]
      case Failed(why) => [Notice(why)]
  }

  /** A completed turn redraws as the prompt followed by the segmented reply. */
  lemma TurnRedraw(prompt: string, reply: string)
    ensures Transcript([UserMessage(prompt), ModelMessage(reply)]) == [You(prompt), Gemini(Segments(reply))]
  {
    var turn := [UserMessage(prompt), ModelMessage(reply)];
    SingleTextShown(prompt);
    SingleTextShown(reply);
    assert Shown(UserMessage(prompt)) == You(prompt);
    assert Shown(ModelMessage(reply)) == Gemini(Segments(reply));
    assert turn[1..] == [ModelMessage(reply)];
    assert turn[1..][1..] == [];
    assert Transcript(turn[1..]) == [Gemini(Segments(reply))] + Transcript([]);
  }

  /** A history extended by a completed turn redraws as the old view followed by what the
      request showed live. */
  lemma RedrawTurn(h: seq<Message>, prompt: string, reply: string)
    ensures Transcript(h + [UserMessage(prompt), ModelMessage(reply)]) == Transcript(h) + Live(prompt, Reply(reply))
  {
    TranscriptAppend(h, [UserMessage(prompt), ModelMessage(reply)]);
    TurnRedraw(prompt, reply);
  }

  /** Reloading a conversation after a request shows what the request showed live when it
      succeeded, and nothing of it when it failed: the prompt and the notice disappear. */
  lemma RedrawMatchesLive(st: Store, input: string, outcome: Outcome)
    requires Ready(st) && Strip(input) != []
    ensures var before := Transcript(st.chats[st.current].history);
            var after := Transcript(Send(st, input, true, outcome).chats[st.current].history);
            after == if outcome.Reply? then before + Live(Strip(input), outcome) else before
  {
    var h := st.chats[st.current].history;
    var h' := Send(st, input, true, outcome).chats[st.current].history;
    if outcome.Reply? {
      assert h' == h + [UserMessage(Strip(input)), ModelMessage(outcome.text)];
      RedrawTurn(h, Strip(input), outcome.text);
    } else {
      assert h' == h;
    }
  }

}
