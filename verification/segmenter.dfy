/** The segmentation of a model reply into plain text, language labels and code blocks,
    driven by the pattern ```(?P<lang>\w*)\s*\n(?P<code>.*?)\n``` with DOTALL, matched
    leftmost and non-overlapping as `finditer` does. The pattern's meaning is stated as the
    predicates `Block` and `Preferred`; the scanner below is proved to find exactly those
    matches. */
module Segmenter {

  import opened Options
  import opened Strings
  import opened Seqs

  /** "```" begins at position `i`. */
  predicate FenceAt(s: string, i: int) {
    0 <= i && i + 3 <= |s| && s[i] == '`' && s[i + 1] == '`' && s[i + 2] == '`'
  }

  /** "\n```" begins at position `i`: the closing delimiter of a block. */
  predicate CloseAt(s: string, i: int) {
    0 <= i && i + 4 <= |s| && s[i] == '\n' && FenceAt(s, i + 1)
  }

  /** The pattern can match `s[p..e + 4]` with `\w*` matching `s[p + 3..q]`, `\s*`
      matching `s[q..n]`, `\n` matching `s[n]`, `.*?` matching `s[n + 1..e]` and the
      closing "\n```" at `e`. */
  ghost predicate Block(s: string, p: int, q: int, n: int, e: int) {
    FenceAt(s, p) && p + 3 <= q <= n < e && CloseAt(s, e)
    && (forall k :: p + 3 <= k < q ==> IsWordChar(s[k]))
    && (forall k :: q <= k < n ==> IsSpace(s[k]))
    && s[n] == '\n'
  }

  /** One match: the opening fence at `start`, the language `s[start + 3..langEnd]`, the
      newline ending the opening line at `newline`, the closing "\n```" at `close`. */
  datatype Match = Match(start: nat, langEnd: nat, newline: nat, close: nat) {
    /** The position just past the closing fence, where the next search resumes. */
    function End(): nat {
      close + 4
    }
  }

  ghost predicate IsBlock(s: string, m: Match) {
    Block(s, m.start, m.langEnd, m.newline, m.close)
  }

  /** Some match of the pattern starts at `p`. */
  ghost predicate MatchesAt(s: string, p: int) {
    exists q, n, e :: Block(s, p, q, n, e)
  }

  /** The match a backtracking engine reports among those starting at `m.start`: the
      greedy `\w*` is tried longest first, then the greedy `\s*` longest first, then the
      lazy `.*?` shortest first. */
  ghost predicate Preferred(s: string, m: Match) {
    IsBlock(s, m)
    && forall q, n, e :: Block(s, m.start, q, n, e) ==>
         q < m.langEnd || (q == m.langEnd && (n < m.newline || (n == m.newline && m.close <= e)))
  }

  /** `m` is the match a search from `from` reports: no match starts earlier. */
  ghost predicate Leftmost(s: string, from: int, m: Match) {
    from <= m.start && Preferred(s, m) && forall p :: from <= p < m.start ==> !MatchesAt(s, p)
  }

  ghost predicate NoMatchFrom(s: string, from: int) {
    forall p :: from <= p ==> !MatchesAt(s, p)
  }

  /** `ms` is the sequence `finditer` yields when scanning from `from`. */
  ghost predicate IsFindAll(s: string, from: int, ms: seq<Match>)
    decreases |ms|
  {
    if ms == [] then NoMatchFrom(s, from)
    else Leftmost(s, from, ms[0]) && IsFindAll(s, ms[0].End(), ms[1..])
  }

  // ---------------------------------------------------------------------------
  // The scanner

  /** The end of the run of `inClass` characters starting at `i`. */
  function RunEnd(s: string, i: nat, inClass: char -> bool): (k: nat)
    requires i <= |s|
    ensures i <= k <= |s|
    ensures forall j :: i <= j < k ==> inClass(s[j])
    ensures k == |s| || !inClass(s[k])
    decreases |s| - i
  {
    if i < |s| && inClass(s[i]) then RunEnd(s, i + 1, inClass) else i
  }

  /** The first closing delimiter at or after `b`. */
  function FirstClose(s: string, b: nat): (r: Option<nat>)
    ensures r.Some? ==> b <= r.value && CloseAt(s, r.value)
                        && forall j :: b <= j < r.value ==> !CloseAt(s, j)
    ensures r.None? ==> forall j :: b <= j ==> !CloseAt(s, j)
    decreases |s| - b
  {
    if b + 4 > |s| then None
    else if CloseAt(s, b) then Some(b)
    else FirstClose(s, b + 1)
  }

  /** A newline at `n` that some closing delimiter follows. */
  predicate Closable(s: string, n: int) {
    0 <= n < |s| && s[n] == '\n' && FirstClose(s, n + 1).Some?
  }

  /** The last closable newline in `s[lo..hi]`. */
  function LastClosable(s: string, lo: nat, hi: nat): (r: Option<nat>)
    requires lo <= hi <= |s|
    ensures r.Some? ==> lo <= r.value < hi && Closable(s, r.value)
                        && forall n :: r.value < n < hi ==> !Closable(s, n)
    ensures r.None? ==> forall n :: lo <= n < hi ==> !Closable(s, n)
    decreases hi - lo
  {
    if hi == lo then None
    else if Closable(s, hi - 1) then Some(hi - 1)
    else LastClosable(s, lo, hi - 1)
  }

  /** Every match at `p` has the language run and the newline the scanner looks at. */
  lemma BlockShape(s: string, p: int, q: int, n: int, e: int)
    requires Block(s, p, q, n, e)
    ensures q == RunEnd(s, p + 3, IsWordChar)
    ensures n < RunEnd(s, q, IsSpace) && Closable(s, n)
    ensures FirstClose(s, n + 1).value <= e
  {
    assert IsSpace(s[q]) by {
      if q < n {
        assert q <= q < n;
      }
    }
    SpaceIsNotWord(s[q]);
    assert CloseAt(s, e);
  }

  /** The match the scanner builds from its choices is the one the engine reports. */
  lemma ScannerPreferred(s: string, p: nat, n: nat)
    requires FenceAt(s, p)
    requires LastClosable(s, RunEnd(s, p + 3, IsWordChar), RunEnd(s, RunEnd(s, p + 3, IsWordChar), IsSpace)) == Some(n)
    ensures Preferred(s, Match(p, RunEnd(s, p + 3, IsWordChar), n, FirstClose(s, n + 1).value))
  {
    var q := RunEnd(s, p + 3, IsWordChar);
    var m := Match(p, q, n, FirstClose(s, n + 1).value);
    assert q <= n;
    forall k | q <= k < n
      ensures IsSpace(s[k])
    {
    }
    assert IsBlock(s, m);
    forall q', n', e' | Block(s, p, q', n', e')
      ensures q' < m.langEnd || (q' == m.langEnd && (n' < m.newline || (n' == m.newline && m.close <= e')))
    {
      BlockShape(s, p, q', n', e');
    }
  }

  /** When the scanner finds no closable newline after the opening line, nothing matches. */
  lemma ScannerNone(s: string, p: nat)
    requires FenceAt(s, p)
    requires LastClosable(s, RunEnd(s, p + 3, IsWordChar), RunEnd(s, RunEnd(s, p + 3, IsWordChar), IsSpace)).None?
    ensures !MatchesAt(s, p)
  {
    forall q, n, e | Block(s, p, q, n, e)
      ensures false
    {
      BlockShape(s, p, q, n, e);
    }
  }

  /** The match of the pattern starting exactly at `p`, if any. */
  function MatchAt(s: string, p: nat): (r: Option<Match>)
    ensures r.Some? ==> r.value.start == p && Preferred(s, r.value)
    ensures r.None? ==> !MatchesAt(s, p)
  {
    if !FenceAt(s, p) then None
    else
      var q := RunEnd(s, p + 3, IsWordChar);
      var space := RunEnd(s, q, IsSpace);
      match LastClosable(s, q, space)
      case None =>
        ScannerNone(s, p);
        None
      case Some(n) =>
        ScannerPreferred(s, p, n);
        Some(Match(p, q, n, FirstClose(s, n + 1).value))
  }

  /** The leftmost match at or after `from`: one step of `finditer`. */
  function NextMatch(s: string, from: nat): (r: Option<Match>)
    ensures r.Some? ==> Leftmost(s, from, r.value)
    ensures r.None? ==> NoMatchFrom(s, from)
    decreases |s| - from
  {
    if from >= |s| then
      assert forall p :: from <= p ==> !FenceAt(s, p);
      None
    else
      match MatchAt(s, from)
      case Some(m) => Some(m)
      case None => NextMatch(s, from + 1)
  }

  /** All matches from `from` on, in order: `finditer`. */
  function FindAll(s: string, from: nat): (ms: seq<Match>)
    ensures IsFindAll(s, from, ms)
    decreases |s| - from
  {
    match NextMatch(s, from)
    case None => []
    case Some(m) =>
      var rest := FindAll(s, m.End());
      assert ([m] + rest)[1..] == rest;
      [m] + rest
  }

  /** The pattern's reported match at a position is unique. */
  lemma PreferredUnique(s: string, m1: Match, m2: Match)
    requires Preferred(s, m1) && Preferred(s, m2) && m1.start == m2.start
    ensures m1 == m2
  {
    assert Block(s, m1.start, m2.langEnd, m2.newline, m2.close);
    assert Block(s, m2.start, m1.langEnd, m1.newline, m1.close);
  }

  lemma LeftmostMatches(s: string, from: int, m: Match)
    requires Leftmost(s, from, m)
    ensures MatchesAt(s, m.start)
  {
    assert IsBlock(s, m);
  }

  /** The description of `finditer` admits exactly one sequence of matches. */
  lemma {:induction false} FindAllUnique(s: string, from: int, ms1: seq<Match>, ms2: seq<Match>)
    requires IsFindAll(s, from, ms1) && IsFindAll(s, from, ms2)
    ensures ms1 == ms2
    decreases |ms1|
  {
    if ms1 != [] && ms2 != [] {
      var m1, m2 := ms1[0], ms2[0];
      if m1.start < m2.start {
        assert MatchesAt(s, m1.start) by { assert IsBlock(s, m1); }
        assert false;
      }
      if m2.start < m1.start {
        assert MatchesAt(s, m2.start) by { assert IsBlock(s, m2); }
        assert false;
      }
      PreferredUnique(s, m1, m2);
      FindAllUnique(s, m1.End(), ms1[1..], ms2[1..]);
      assert ms1 == [m1] + ms1[1..];
      assert ms2 == [m2] + ms2[1..];
    } else if ms1 != [] {
      LeftmostMatches(s, from, ms1[0]);
    } else if ms2 != [] {
      LeftmostMatches(s, from, ms2[0]);
    }
  }


  // ---------------------------------------------------------------------------
  // Layout: the reply cut into the gaps between matches and the matches themselves

  /** A stretch of the reply: text outside any block, or one matched block split into its
      language, the whitespace after it, and its body. */
  datatype Piece = Plain(text: string) | Fenced(lang: string, space: string, body: string)

  /** The characters of the reply a piece covers. */
  function Raw(piece: Piece): string {
    match piece
    case Plain(text) => text
    case Fenced(lang, space, body) => "```" + lang + space + "\n" + body + "\n```"
  }

  function Unparse(pieces: seq<Piece>): string {
    FlatMap(pieces, Raw)
  }

  /** The delimiters of `m` are where it says: the opening fence, the newline ending the
      opening line and the closing fence. */
  predicate Shaped(s: string, m: Match) {
    FenceAt(s, m.start) && m.start + 3 <= m.langEnd <= m.newline < m.close
    && CloseAt(s, m.close) && s[m.newline] == '\n'
  }

  /** `ms` are shaped like blocks of `s`, in order and not overlapping, from `from` on. */
  predicate Placed(s: string, from: int, ms: seq<Match>)
    decreases |ms|
  {
    0 <= from <= |s|
    && (ms != [] ==> from <= ms[0].start && Shaped(s, ms[0]) && Placed(s, ms[0].End(), ms[1..]))
  }

  /** What `finditer` yields from a position inside the reply is placed, and each of its
      matches is a match of the pattern. */
  lemma {:induction false} FindAllPlaced(s: string, from: int, ms: seq<Match>)
    requires 0 <= from <= |s| && IsFindAll(s, from, ms)
    ensures Placed(s, from, ms)
    ensures forall i :: 0 <= i < |ms| ==> IsBlock(s, ms[i])
    decreases |ms|
  {
    if ms != [] {
      FindAllPlaced(s, ms[0].End(), ms[1..]);
      forall i | 0 <= i < |ms|
        ensures IsBlock(s, ms[i])
      {
        if i > 0 {
          assert ms[i] == ms[1..][i - 1];
        }
      }
    }
  }

  /** The captured language, `match.group('lang')`. */
  function LangOf(s: string, m: Match): string
    requires m.start + 3 <= m.langEnd <= |s|
  {
    s[m.start + 3..m.langEnd]
  }

  /** The captured body, `match.group('code')`. */
  function BodyOf(s: string, m: Match): string
    requires m.newline < m.close <= |s|
  {
    s[m.newline + 1..m.close]
  }

  function BlockPiece(s: string, m: Match): Piece
    requires Shaped(s, m)
  {
    Fenced(LangOf(s, m), s[m.langEnd..m.newline], BodyOf(s, m))
  }

  /** The gap before each match, the match, and the text after the last match. */
  function Layout(s: string, from: int, ms: seq<Match>): (r: seq<Piece>)
    requires Placed(s, from, ms)
    ensures |r| == 2 * |ms| + 1
    decreases |ms|
  {
    if ms == [] then [Plain(s[from..])]
    else [Plain(s[from..ms[0].start]), BlockPiece(s, ms[0])] + Layout(s, ms[0].End(), ms[1..])
  }

  lemma {:induction false} PlacedShaped(s: string, from: int, ms: seq<Match>)
    requires Placed(s, from, ms)
    ensures forall i :: 0 <= i < |ms| ==> Shaped(s, ms[i])
    decreases |ms|
  {
    if ms != [] {
      PlacedShaped(s, ms[0].End(), ms[1..]);
      forall i | 0 < i < |ms|
        ensures Shaped(s, ms[i])
      {
        assert ms[i] == ms[1..][i - 1];
      }
    }
  }

  /** The layout alternates gaps and the matches' pieces: gap, block, gap, ..., block, gap. */
  lemma {:induction false} LayoutAlternates(s: string, from: int, ms: seq<Match>)
    requires Placed(s, from, ms)
    ensures forall i :: 0 <= i < |ms| ==> Shaped(s, ms[i])
    ensures forall k :: 0 <= k < |ms| ==> Layout(s, from, ms)[2 * k + 1] == BlockPiece(s, ms[k])
    ensures forall i :: 0 <= i < |Layout(s, from, ms)| && i % 2 == 0 ==> Layout(s, from, ms)[i].Plain?
    decreases |ms|
  {
    PlacedShaped(s, from, ms);
    if ms != [] {
      var l, rest := Layout(s, from, ms), Layout(s, ms[0].End(), ms[1..]);
      LayoutAlternates(s, ms[0].End(), ms[1..]);
      forall k | 0 <= k < |ms|
        ensures l[2 * k + 1] == BlockPiece(s, ms[k])
      {
        if k > 0 {
          assert l[2 * k + 1] == rest[2 * (k - 1) + 1];
          assert ms[k] == ms[1..][k - 1];
        }
      }
      forall i | 0 <= i < |l| && i % 2 == 0
        ensures l[i].Plain?
      {
        if i > 0 {
          assert l[i] == rest[i - 2];
        }
      }
    }
  }

  lemma SliceSplit(s: string, i: int, j: int, k: int)
    requires 0 <= i <= j <= k <= |s|
    ensures s[i..k] == s[i..j] + s[j..k]
  {
  }

  lemma SliceSplit3(s: string, i: int, j: int, k: int)
    requires 0 <= i <= j <= k <= |s|
    ensures s[i..] == s[i..j] + s[j..k] + s[k..]
  {
  }

  lemma Delimiters(s: string, m: Match)
    requires Shaped(s, m)
    ensures s[m.start..m.start + 3] == "```"
    ensures s[m.newline..m.newline + 1] == "\n"
    ensures s[m.close..m.close + 4] == "\n```"
  {
  }

  /** The opening line of a shaped block: the fence, the language, the whitespace and the
      newline. */
  lemma OpeningRaw(s: string, m: Match)
    requires Shaped(s, m)
    ensures s[m.start..m.newline + 1] == "```" + LangOf(s, m) + s[m.langEnd..m.newline] + "\n"
  {
    var a, q, n := m.start, m.langEnd, m.newline;
    Delimiters(s, m);
    SliceSplit(s, a, a + 3, q);
    SliceSplit(s, a, q, n);
    SliceSplit(s, a, n, n + 1);
  }

  /** A shaped block covers exactly the characters its piece stands for. */
  lemma BlockRaw(s: string, m: Match)
    requires Shaped(s, m)
    ensures s[m.start..m.End()] == Raw(BlockPiece(s, m))
  {
    var a, n, e := m.start, m.newline, m.close;
    var opening := "```" + LangOf(s, m) + s[m.langEnd..n] + "\n";
    OpeningRaw(s, m);
    Delimiters(s, m);
    SliceSplit(s, a, n + 1, e);
    SliceSplit(s, a, e, e + 4);
    assert s[a..e + 4] == opening + BodyOf(s, m) + "\n```";
  }

  lemma FlatMapTwoThenRest<B>(pieces: seq<Piece>, x: Piece, y: Piece, rest: seq<Piece>, f: Piece -> seq<B>)
    requires pieces == [x, y] + rest
    ensures FlatMap(pieces, f) == f(x) + f(y) + FlatMap(rest, f)
  {
    assert pieces[1..] == [y] + rest;
    assert pieces[1..][1..] == rest;
  }

  /** Seen through any projection, a layout is its first gap, its first block and the
      layout of the rest. */
  lemma LayoutFlatMapStep<B>(s: string, from: int, ms: seq<Match>, f: Piece -> seq<B>)
    requires Placed(s, from, ms) && ms != []
    ensures FlatMap(Layout(s, from, ms), f)
         == f(Plain(s[from..ms[0].start])) + f(BlockPiece(s, ms[0])) + FlatMap(Layout(s, ms[0].End(), ms[1..]), f)
  {
    var m := ms[0];
    FlatMapTwoThenRest(Layout(s, from, ms), Plain(s[from..m.start]), BlockPiece(s, m), Layout(s, m.End(), ms[1..]), f);
  }

  /** The first two pieces of a layout stand for the gap and the first match. */
  lemma UnparseStep(s: string, from: int, ms: seq<Match>)
    requires Placed(s, from, ms) && ms != []
    ensures var m := ms[0];
            Unparse(Layout(s, from, ms)) == s[from..m.start] + s[m.start..m.End()] + Unparse(Layout(s, m.End(), ms[1..]))
  {
    LayoutFlatMapStep(s, from, ms, Raw);
    BlockRaw(s, ms[0]);
  }

  /** The gaps and the matched blocks tile the reply exactly, in order. */
  lemma {:induction false} LayoutTiles(s: string, from: int, ms: seq<Match>)
    requires Placed(s, from, ms)
    ensures Unparse(Layout(s, from, ms)) == s[from..]
    decreases |ms|
  {
    if ms == [] {
      FlatMapOne(Plain(s[from..]), Raw);
    } else {
      var m := ms[0];
      UnparseStep(s, from, ms);
      LayoutTiles(s, m.End(), ms[1..]);
      SliceSplit3(s, from, m.start, m.End());
    }
  }

  /** The blocks' pieces, one per match. */
  function BlockPieces(s: string, ms: seq<Match>): (r: seq<Piece>)
    requires forall i :: 0 <= i < |ms| ==> Shaped(s, ms[i])
  {
    seq(|ms|, i requires 0 <= i < |ms| => BlockPiece(s, ms[i]))
  }

  /** A projection that ignores the gaps sees only the blocks, in order. */
  lemma {:induction false} LayoutBlocksOnly<B>(s: string, from: int, ms: seq<Match>, f: Piece -> seq<B>)
    requires Placed(s, from, ms)
    requires forall t :: f(Plain(t)) == []
    ensures forall i :: 0 <= i < |ms| ==> Shaped(s, ms[i])
    ensures FlatMap(Layout(s, from, ms), f) == FlatMap(BlockPieces(s, ms), f)
    decreases |ms|
  {
    PlacedShaped(s, from, ms);
    if ms == [] {
      FlatMapOne(Plain(s[from..]), f);
    } else {
      var m := ms[0];
      LayoutFlatMapStep(s, from, ms, f);
      LayoutBlocksOnly(s, m.End(), ms[1..], f);
      var b := BlockPieces(s, ms);
      assert b[1..] == BlockPieces(s, ms[1..]);
    }
  }

  // ---------------------------------------------------------------------------
  // Rendering

  /** What the chat view shows for a reply, in order: plain text, a `Language: ...`
      label, and a code block whose save button writes `payload`. */
  datatype Segment = Text(text: string) | Lang(lang: string) | Code(code: string, payload: string)

  /** The segments one piece contributes: an empty gap contributes none; a block
      contributes a label when its language is non-empty, then its stripped body. */
  function Render(piece: Piece): seq<Segment> {
    match piece
    case Plain(text) => if text == [] then [] else [Text(text)]
    case Fenced(lang, _, body) => BlockShown(lang, Strip(body))
  }

  /** A block as shown: a label when the language is non-empty, then the code, which the
      save button carries too. */
  function BlockShown(lang: string, code: string): seq<Segment> {
    if lang == [] then [Code(code, code)] else [Lang(lang), Code(code, code)]
  }

  predicate AllWord(t: string) {
    forall k :: 0 <= k < |t| ==> IsWordChar(t[k])
  }

  /** No text is empty, every label is a non-empty run of word characters and introduces a
      code block, and every save button carries exactly the code shown. */
  ghost predicate WellFormed(segments: seq<Segment>) {
    && (forall i :: 0 <= i < |segments| && segments[i].Text? ==> segments[i].text != [])
    && (forall i :: 0 <= i < |segments| && segments[i].Lang? ==>
          segments[i].lang != [] && AllWord(segments[i].lang) && i + 1 < |segments| && segments[i + 1].Code?)
    && (forall i :: 0 <= i < |segments| && segments[i].Code? ==> segments[i].payload == segments[i].code)
  }

  lemma WellFormedAppend(a: seq<Segment>, b: seq<Segment>)
    requires WellFormed(a) && WellFormed(b)
    ensures WellFormed(a + b)
  {
    var r := a + b;
    forall i | 0 <= i < |r| && r[i].Lang?
      ensures i + 1 < |r| && r[i + 1].Code?
    {
      if i < |a| {
        assert r[i] == a[i];
        assert r[i + 1] == a[i + 1];
      } else {
        assert r[i] == b[i - |a|];
        assert r[i + 1] == b[i - |a| + 1];
      }
    }
  }

  lemma BlockShownWellFormed(lang: string, code: string)
    requires AllWord(lang)
    ensures WellFormed(BlockShown(lang, code))
  {
  }

  /** A piece whose language is made of word characters renders well formed. */
  lemma RenderWellFormed(piece: Piece)
    requires piece.Fenced? ==> AllWord(piece.lang)
    ensures WellFormed(Render(piece))
  {
    match piece
    case Plain(_) =>
    case Fenced(lang, _, body) => BlockShownWellFormed(lang, Strip(body));
  }

  lemma {:induction false} RenderAllWellFormed(pieces: seq<Piece>)
    requires forall i :: 0 <= i < |pieces| && pieces[i].Fenced? ==> AllWord(pieces[i].lang)
    ensures WellFormed(FlatMap(pieces, Render))
    decreases |pieces|
  {
    if pieces != [] {
      RenderWellFormed(pieces[0]);
      RenderAllWellFormed(pieces[1..]);
      WellFormedAppend(Render(pieces[0]), FlatMap(pieces[1..], Render));
    }
  }

  /** A match's language is made of word characters. */
  lemma BlockLang(s: string, m: Match)
    requires IsBlock(s, m)
    ensures Shaped(s, m) && AllWord(LangOf(s, m))
  {
    var lang := LangOf(s, m);
    forall k | 0 <= k < |lang|
      ensures IsWordChar(lang[k])
    {
      assert lang[k] == s[m.start + 3 + k];
    }
  }

  /** The layout of the matches `finditer` reports renders well formed. */
  lemma LayoutWellFormed(s: string, ms: seq<Match>)
    requires IsFindAll(s, 0, ms)
    ensures Placed(s, 0, ms) && WellFormed(FlatMap(Layout(s, 0, ms), Render))
  {
    FindAllPlaced(s, 0, ms);
    var pieces := Layout(s, 0, ms);
    LayoutAlternates(s, 0, ms);
    forall i | 0 <= i < |pieces| && pieces[i].Fenced?
      ensures AllWord(pieces[i].lang)
    {
      var k := i / 2;
      assert i == 2 * k + 1;
      BlockLang(s, ms[k]);
    }
    RenderAllWellFormed(pieces);
  }

  /** `_insert_gemini_parsed_message_content`: the segments shown for a reply. */
  function Segments(message: string): (r: seq<Segment>)
    ensures WellFormed(r)
  {
    var ms := FindAll(message, 0);
    LayoutWellFormed(message, ms);
    FlatMap(Layout(message, 0, ms), Render)
  }

  // ---------------------------------------------------------------------------
  // What the segments show

  function CodeOf(segment: Segment): seq<string> {
    if segment.Code? then [segment.code] else []
  }

  function LabelOf(segment: Segment): seq<string> {
    if segment.Lang? then [segment.lang] else []
  }

  function TextOf(segment: Segment): string {
    if segment.Text? then segment.text else []
  }

  function PieceCode(piece: Piece): seq<string> {
    if piece.Fenced? then [Strip(piece.body)] else []
  }

  /** A language as a label: none when empty. */
  function Label(lang: string): seq<string> {
    if lang == [] then [] else [lang]
  }

  function PieceLabel(piece: Piece): seq<string> {
    if piece.Fenced? then Label(piece.lang) else []
  }

  function PieceText(piece: Piece): string {
    if piece.Plain? then piece.text else []
  }

  lemma BlockShownProjections(lang: string, code: string)
    ensures FlatMap(BlockShown(lang, code), CodeOf) == [code]
    ensures FlatMap(BlockShown(lang, code), LabelOf) == Label(lang)
    ensures FlatMap(BlockShown(lang, code), TextOf) == []
  {
    var c := Code(code, code);
    if lang == [] {
      FlatMapOne(c, CodeOf);
      FlatMapOne(c, LabelOf);
      FlatMapOne(c, TextOf);
    } else {
      FlatMapTwoThen(BlockShown(lang, code), Lang(lang), c, CodeOf);
      FlatMapTwoThen(BlockShown(lang, code), Lang(lang), c, LabelOf);
      FlatMapTwoThen(BlockShown(lang, code), Lang(lang), c, TextOf);
    }
  }

  lemma RenderProjections(piece: Piece)
    ensures FlatMap(Render(piece), CodeOf) == PieceCode(piece)
    ensures FlatMap(Render(piece), LabelOf) == PieceLabel(piece)
    ensures FlatMap(Render(piece), TextOf) == PieceText(piece)
  {
    match piece
    case Plain(text) =>
      if text != [] {
        FlatMapOne(Text(text), CodeOf);
        FlatMapOne(Text(text), LabelOf);
        FlatMapOne(Text(text), TextOf);
      }
    case Fenced(lang, _, body) => BlockShownProjections(lang, Strip(body));
  }

  lemma FlatMapTwoThen<A, B>(xs: seq<A>, x: A, y: A, f: A -> seq<B>)
    requires xs == [x, y]
    ensures FlatMap(xs, f) == f(x) + f(y)
  {
    assert xs[1..] == [y];
    FlatMapOne(y, f);
  }

  /** The segments of a reply seen through a projection are the layout's pieces seen
      through the matching projection. */
  lemma SegmentsProjections(message: string, ms: seq<Match>)
    requires IsFindAll(message, 0, ms)
    ensures Placed(message, 0, ms)
    ensures FlatMap(Segments(message), CodeOf) == FlatMap(Layout(message, 0, ms), PieceCode)
    ensures FlatMap(Segments(message), LabelOf) == FlatMap(Layout(message, 0, ms), PieceLabel)
    ensures FlatMap(Segments(message), TextOf) == FlatMap(Layout(message, 0, ms), PieceText)
  {
    FindAllUnique(message, 0, ms, FindAll(message, 0));
    FindAllPlaced(message, 0, ms);
    forall piece: Piece
      ensures FlatMap(Render(piece), CodeOf) == PieceCode(piece)
      ensures FlatMap(Render(piece), LabelOf) == PieceLabel(piece)
      ensures FlatMap(Render(piece), TextOf) == PieceText(piece)
    {
      RenderProjections(piece);
    }
    var pieces := Layout(message, 0, ms);
    FlatMapCompose(pieces, Render, CodeOf, PieceCode);
    FlatMapCompose(pieces, Render, LabelOf, PieceLabel);
    FlatMapCompose(pieces, Render, TextOf, PieceText);
  }

  /** The languages of the matches, in order. */
  function Langs(s: string, ms: seq<Match>): (r: seq<string>)
    requires forall i :: 0 <= i < |ms| ==> Shaped(s, ms[i])
  {
    seq(|ms|, i requires 0 <= i < |ms| && Shaped(s, ms[i]) => LangOf(s, ms[i]))
  }

  /** The matches' bodies, stripped, in order. */
  function Bodies(s: string, ms: seq<Match>): (r: seq<string>)
    requires forall i :: 0 <= i < |ms| ==> Shaped(s, ms[i])
  {
    seq(|ms|, i requires 0 <= i < |ms| && Shaped(s, ms[i]) => Strip(BodyOf(s, ms[i])))
  }

  lemma BlockPieceCodes(s: string, ms: seq<Match>)
    requires forall i :: 0 <= i < |ms| ==> Shaped(s, ms[i])
    ensures FlatMap(BlockPieces(s, ms), PieceCode) == Bodies(s, ms)
  {
    var blocks, bodies := BlockPieces(s, ms), Bodies(s, ms);
    forall i | 0 <= i < |blocks|
      ensures PieceCode(blocks[i]) == [bodies[i]]
    {
      assert blocks[i] == BlockPiece(s, ms[i]);
    }
    FlatMapSingletons(blocks, PieceCode, bodies);
  }

  /** The blocks' pieces seen through `PieceCode`: one stripped body per match. */
  lemma BlockCodes(s: string, from: int, ms: seq<Match>)
    requires Placed(s, from, ms)
    ensures var codes := FlatMap(Layout(s, from, ms), PieceCode);
            |codes| == |ms|
            && forall i :: 0 <= i < |ms| ==> Shaped(s, ms[i]) && codes[i] == Strip(BodyOf(s, ms[i]))
  {
    LayoutBlocksOnly(s, from, ms, PieceCode);
    BlockPieceCodes(s, ms);
  }

  /** The blocks' pieces seen through `PieceLabel`: the non-empty languages in order. */
  lemma BlockLabels(s: string, from: int, ms: seq<Match>)
    requires Placed(s, from, ms)
    ensures forall i :: 0 <= i < |ms| ==> Shaped(s, ms[i])
    ensures FlatMap(Layout(s, from, ms), PieceLabel) == FlatMap(Langs(s, ms), Label)
  {
    LayoutBlocksOnly(s, from, ms, PieceLabel);
    var blocks := BlockPieces(s, ms);
    FlatMapPointwise(blocks, PieceLabel, Langs(s, ms), Label);
  }

  /** One code block is shown per match, in order, holding the match's body with the
      surrounding whitespace stripped. */
  lemma SegmentsShowBodies(message: string, ms: seq<Match>)
    requires IsFindAll(message, 0, ms)
    ensures var codes := FlatMap(Segments(message), CodeOf);
            |codes| == |ms|
            && forall i :: 0 <= i < |ms| ==> Shaped(message, ms[i]) && codes[i] == Strip(BodyOf(message, ms[i]))
  {
    SegmentsProjections(message, ms);
    BlockCodes(message, 0, ms);
  }

  /** The labels shown are the matches' languages, in order, with the empty ones left out. */
  lemma SegmentsShowLabels(message: string, ms: seq<Match>)
    requires IsFindAll(message, 0, ms)
    ensures forall i :: 0 <= i < |ms| ==> Shaped(message, ms[i])
    ensures FlatMap(Segments(message), LabelOf) == FlatMap(Langs(message, ms), Label)
  {
    SegmentsProjections(message, ms);
    BlockLabels(message, 0, ms);
  }

  /** The reply with the spans `ms` cover cut out, from `from` on. */
  function Outside(s: string, from: int, ms: seq<Match>): string
    requires Placed(s, from, ms)
    decreases |ms|
  {
    if ms == [] then s[from..] else s[from..ms[0].start] + Outside(s, ms[0].End(), ms[1..])
  }

  lemma TextStep(s: string, from: int, ms: seq<Match>)
    requires Placed(s, from, ms) && ms != []
    ensures FlatMap(Layout(s, from, ms), PieceText)
         == s[from..ms[0].start] + FlatMap(Layout(s, ms[0].End(), ms[1..]), PieceText)
  {
    LayoutFlatMapStep(s, from, ms, PieceText);
  }

  lemma {:induction false} LayoutText(s: string, from: int, ms: seq<Match>)
    requires Placed(s, from, ms)
    ensures FlatMap(Layout(s, from, ms), PieceText) == Outside(s, from, ms)
    decreases |ms|
  {
    if ms == [] {
      FlatMapOne(Plain(s[from..]), PieceText);
    } else {
      TextStep(s, from, ms);
      LayoutText(s, ms[0].End(), ms[1..]);
    }
  }

  /** The text shown, read in order, is the reply with every matched block cut out. */
  lemma SegmentsShowOutside(message: string, ms: seq<Match>)
    requires IsFindAll(message, 0, ms)
    ensures Placed(message, 0, ms)
    ensures FlatMap(Segments(message), TextOf) == Outside(message, 0, ms)
  {
    SegmentsProjections(message, ms);
    LayoutText(message, 0, ms);
  }

  /** A reply the pattern never matches is shown as one text, or nothing when empty. */
  lemma PlainReply(message: string)
    requires NoMatchFrom(message, 0)
    ensures Segments(message) == if message == [] then [] else [Text(message)]
  {
    assert IsFindAll(message, 0, []);
    FindAllUnique(message, 0, [], FindAll(message, 0));
    assert message[0..] == message;
    FlatMapOne(Plain(message), Render);
  }

  // ---------------------------------------------------------------------------
  // A worked reply

  /** In "Use ```python\nprint(1)\n``` now" the pattern matches once, from the fence at 4
      to the closing fence ending at 26. */
  lemma ExampleMatches(s: string)
    requires s == "Use ```python\nprint(1)\n``` now"
    ensures IsFindAll(s, 0, [Match(4, 13, 13, 22)])
  {
    var m := Match(4, 13, 13, 22);
    assert |s| == 30;
    forall p | 26 <= p
      ensures !MatchesAt(s, p)
    {
      assert !FenceAt(s, p);
    }
    assert IsFindAll(s, m.End(), []);
    forall p | 0 <= p < 4
      ensures !MatchesAt(s, p)
    {
      assert !FenceAt(s, p);
    }
    assert FenceAt(s, 4) && CloseAt(s, 22) && s[13] == '\n';
    forall k | 7 <= k < 13
      ensures IsWordChar(s[k])
    {
    }
    assert IsBlock(s, m);
    assert !IsWordChar(s[13]) && !IsSpace(s[14]) && s[14] != '\n';
    forall k | 14 <= k < 22
      ensures s[k] != '\n'
    {
    }
    forall q, n, e | Block(s, 4, q, n, e)
      ensures q < 13 || (q == 13 && (n < 13 || (n == 13 && 22 <= e)))
    {
    }
    assert Preferred(s, m);
  }

  lemma ExampleSlices(s: string)
    requires s == "Use ```python\nprint(1)\n``` now"
    ensures s[0..4] == "Use "
    ensures s[7..13] == "python"
    ensures s[13..13] == ""
    ensures s[14..22] == "print(1)"
    ensures s[26..] == " now"
  {
    assert s[7] == 'p';
    assert s[8] == 'y';
    assert s[9] == 't';
    assert s[10] == 'h';
    assert s[11] == 'o';
    assert s[12] == 'n';
  }

  lemma ExampleShaped(s: string)
    requires s == "Use ```python\nprint(1)\n``` now"
    ensures |s| == 30 && Shaped(s, Match(4, 13, 13, 22))
  {
    assert FenceAt(s, 4) && CloseAt(s, 22) && s[13] == '\n';
  }

  lemma ExampleLayout(s: string)
    requires s == "Use ```python\nprint(1)\n``` now"
    ensures Placed(s, 0, [Match(4, 13, 13, 22)])
    ensures Layout(s, 0, [Match(4, 13, 13, 22)]) == [Plain(s[0..4]), Fenced(s[7..13], s[13..13], s[14..22]), Plain(s[26..])]
  {
    var m := Match(4, 13, 13, 22);
    ExampleShaped(s);
    assert Placed(s, 26, []);
    assert [m][1..] == [];
    assert Layout(s, 26, []) == [Plain(s[26..])];
  }

  /** A block with a language between two gaps shows as text, label, code, text. */
  lemma RenderGapBlockGap(before: string, lang: string, ws: string, code: string, after: string)
    requires before != [] && lang != [] && after != []
    requires code != [] && !IsSpace(code[0]) && !IsSpace(code[|code| - 1])
    ensures FlatMap([Plain(before), Fenced(lang, ws, code), Plain(after)], Render)
         == [Text(before), Lang(lang), Code(code, code), Text(after)]
  {
    var x, y, z := Plain(before), Fenced(lang, ws, code), Plain(after);
    assert FlatMap([x, y, z], Render) == Render(x) + Render(y) + Render(z) by {
      FlatMapTwoThenRest([x, y, z], x, y, [z], Render);
      FlatMapOne(z, Render);
    }
    assert Render(y) == [Lang(lang), Code(code, code)] by {
      StripOfTrimmed(code);
    }
  }

  /** The segments of a reply are the rendering of the layout of whatever sequence of
      matches `finditer` is described to yield. */
  lemma SegmentsOf(s: string, ms: seq<Match>)
    requires IsFindAll(s, 0, ms)
    ensures Placed(s, 0, ms) && Segments(s) == FlatMap(Layout(s, 0, ms), Render)
  {
    FindAllUnique(s, 0, ms, FindAll(s, 0));
    FindAllPlaced(s, 0, ms);
  }

  /** The reply shows "Use ", the label "python", the code "print(1)" with a save button
      for it, and " now". */
  lemma ExampleSegments(s: string)
    requires s == "Use ```python\nprint(1)\n``` now"
    ensures Segments(s) == [Text("Use "), Lang("python"), Code("print(1)", "print(1)"), Text(" now")]
  {
    var m := Match(4, 13, 13, 22);
    ExampleCode(s);
    RenderGapBlockGap(s[0..4], s[7..13], s[13..13], s[14..22], s[26..]);
    ExampleSlices(s);
    ExampleMatches(s);
    SegmentsOf(s, [m]);
    ExampleLayout(s);
  }

  /** The example's gaps and language are not empty, and its code neither begins nor ends
      with whitespace. */
  lemma ExampleCode(s: string)
    requires s == "Use ```python\nprint(1)\n``` now"
    ensures s[0..4] != [] && s[7..13] != [] && s[26..] != []
    ensures var code := s[14..22]; code != [] && !IsSpace(code[0]) && !IsSpace(code[|code| - 1])
  {
    var code := s[14..22];
    assert code[0] == s[14] == 'p' && code[|code| - 1] == s[21] == ')';
  }

}
