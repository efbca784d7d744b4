/** Conversation titles: the numbered placeholder, the title derived from the first prompt,
    and the timestamp fallback. */
module Titles {

  import opened Options
  import opened Strings
  import opened Messages

  /** Longest prompt prefix a derived title keeps. */
  const MaxTitleLength: nat := 30

  const Ellipsis: string := "..."

  /** Every placeholder title begins with this; the check is a plain prefix test. */
  const PlaceholderPrefix: string := "New Chat"

  /** `text[:30] + "..." if len(text) > 30 else text`. */
  function Truncate(text: string): (r: string)
    ensures |r| <= MaxTitleLength + |Ellipsis|
    ensures |text| <= MaxTitleLength ==> r == text
    ensures StartsWith(r, text[..if |text| < MaxTitleLength then |text| else MaxTitleLength])
    ensures |text| > MaxTitleLength ==> |r| == MaxTitleLength + |Ellipsis| && r[MaxTitleLength..] == Ellipsis
  {
    if |text| > MaxTitleLength then text[..MaxTitleLength] + Ellipsis else text
  }

  /** Truncating a derived title again changes nothing: the title keeps its own first
      thirty characters and its ellipsis. */
  lemma TruncateIdempotent(text: string)
    ensures Truncate(Truncate(text)) == Truncate(text)
  {
    var r := Truncate(text);
    if |text| > MaxTitleLength {
      assert r[..MaxTitleLength] == text[..MaxTitleLength];
    }
  }

  /** Python's `str.startswith("New Chat")`. */
  predicate IsPlaceholder(title: string) {
    StartsWith(title, PlaceholderPrefix)
  }

  /** The title of the conversation made at start-up is a placeholder. */
  lemma FirstPlaceholder()
    ensures IsPlaceholder("New Chat 1")
  {
  }

  /** `f"New Chat {n}"`. */
  function PlaceholderTitle(n: nat): (r: string)
    ensures IsPlaceholder(r)
    ensures |r| > |PlaceholderPrefix| + 1 && r[|PlaceholderPrefix|] == ' '
    ensures AllDigits(r[|PlaceholderPrefix| + 1..]) && DecimalValue(r[|PlaceholderPrefix| + 1..]) == n
    ensures |r| > |PlaceholderPrefix| + 2 ==> r[|PlaceholderPrefix| + 1] != '0'
  {
    var r := PlaceholderPrefix + " " + Decimal(n);
    assert r[..|PlaceholderPrefix|] == PlaceholderPrefix;
    assert r[|PlaceholderPrefix| + 1..] == Decimal(n);
    r
  }

  /** `f"Chat {timestamp}"`; the clock reading is a parameter. */
  function FallbackTitle(timestamp: string): (r: string)
    ensures !IsPlaceholder(r)
  {
    var r := "Chat " + timestamp;
    assert r[0] == 'C';
    r
  }

  /** The title a conversation with this history gets when it stops being a placeholder. */
  function DeriveTitle(history: seq<Message>, timestamp: string): (r: string)
    ensures (forall i :: 0 <= i < |history| ==> !Speaks(history[i])) ==> r == FallbackTitle(timestamp)
    ensures forall i :: 0 <= i < |history| && Speaks(history[i]) && (forall k :: 0 <= k < i ==> !Speaks(history[k]))
                        ==> r == Truncate(FirstText(history[i].parts).value)
  {
    match FirstUserText(history)
    case Some(text) => Truncate(text)
    case None => FallbackTitle(timestamp)
  }

}
