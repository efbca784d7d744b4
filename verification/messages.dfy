/** The records a conversation's history holds: `{"role": ..., "parts": [{"text": ...}]}`. */
module Messages {

  import opened Options

  datatype Role = User | Model

  /** One entry of a message's `parts` list; `OtherPart` is an entry without a `"text"` key. */
  datatype Part = TextPart(text: string) | OtherPart

  datatype Message = Message(role: Role, parts: seq<Part>)

  /** The record appended for a prompt the user sends. */
  function UserMessage(prompt: string): Message {
    Message(User, [TextPart(prompt)])
  }

  /** The record appended for the reply the service returns. */
  function ModelMessage(reply: string): Message {
    Message(Model, [TextPart(reply)])
  }

  /** The text a stored message is redisplayed with: the texts of the parts that have one,
      joined in order. */
  function MessageText(parts: seq<Part>): string {
    if parts == [] then []
    else (if parts[0].TextPart? then parts[0].text else []) + MessageText(parts[1..])
  }

  /** Joining distributes over splitting the parts list anywhere. */
  lemma {:induction false} MessageTextAppend(a: seq<Part>, b: seq<Part>)
    ensures MessageText(a + b) == MessageText(a) + MessageText(b)
    decreases |a|
  {
    if a == [] {
      assert a + b == b;
    } else {
      assert (a + b)[1..] == a[1..] + b;
      MessageTextAppend(a[1..], b);
    }
  }

  /** A message built from one text shows exactly that text. */
  lemma SingleTextShown(text: string)
    ensures MessageText(UserMessage(text).parts) == text
    ensures MessageText(ModelMessage(text).parts) == text
  {
  }

  /** A part whose `"text"` is present and non-empty (Python truthiness). */
  predicate HasText(p: Part) {
    p.TextPart? && p.text != []
  }

  /** The first non-empty text among `parts`, if any. */
  function FirstText(parts: seq<Part>): (r: Option<string>)
    ensures r.None? <==> forall j :: 0 <= j < |parts| ==> !HasText(parts[j])
    ensures r.Some? ==> (exists j :: 0 <= j < |parts| && parts[j] == TextPart(r.value)
                           && r.value != [] && forall k :: 0 <= k < j ==> !HasText(parts[k]))
  {
    if parts == [] then None
    else if HasText(parts[0]) then Some(parts[0].text)
    else
      var r := FirstText(parts[1..]);
      if r.Some? then
        var j :| 0 <= j < |parts[1..]| && parts[1..][j] == TextPart(r.value)
          && r.value != [] && forall k :: 0 <= k < j ==> !HasText(parts[1..][k]);
        assert parts[j + 1] == TextPart(r.value);
        r
      else
        r
  }

  /** A user message that carries some non-empty text. */
  predicate Speaks(m: Message) {
    m.role == User && FirstText(m.parts).Some?
  }

  /** The text a title is derived from: the first non-empty text part of the first
      user message that has one. */
  function FirstUserText(history: seq<Message>): (r: Option<string>)
    ensures r.None? <==> forall i :: 0 <= i < |history| ==> !Speaks(history[i])
    ensures r.Some? ==> (exists i :: 0 <= i < |history| && Speaks(history[i])
                           && FirstText(history[i].parts) == r && forall k :: 0 <= k < i ==> !Speaks(history[k]))
  {
    if history == [] then None
    else if Speaks(history[0]) then FirstText(history[0].parts)
    else
      var r := FirstUserText(history[1..]);
      if r.Some? then
        var i :| 0 <= i < |history[1..]| && Speaks(history[1..][i])
          && FirstText(history[1..][i].parts) == r && forall k :: 0 <= k < i ==> !Speaks(history[1..][k]);
        assert history[i + 1] == history[1..][i];
        r
      else
        r
  }

}
