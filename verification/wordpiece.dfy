/** The sub-word tokenizer of the MiniLM sentence-similarity demo
    (RunMiniLM.GetTokens): lower-case the text, split it on white space and
    cut every word greedily into the longest vocabulary pieces, continuation
    pieces carrying a "##" mark; the ids are vocabulary positions framed by
    the start and end markers.

    A word is cut into spans of its characters. The loop of the source
    searches, from the current start, for the longest piece in the
    vocabulary by counting the end position down from the word's length;
    three things can then happen that the model keeps apart:
    - no piece at all, at the start of the word: the word is dropped;
    - no piece at all, after a first piece: the end position reaches
      start - 1 and Substring is called with length -1, which throws
      ArgumentOutOfRangeException;
    - a zero-length piece ("" at the start, "##" later) is in the
      vocabulary and is the longest match: the loop is reset to the very
      same state and never ends. */
module WordPiece {
  import Text

  const StartToken: int := 101
  const EndToken: int := 102

  /** How a call of the tokenizer ends. */
  datatype Outcome<T> =
    | Done(value: T)
      /** String.Substring was asked for a negative length. */
    | OutOfRange
      /** The search was reset to the state it started from. */
    | Diverges

  /** Characters [start, end) of a word. */
  datatype Span = Span(start: nat, end: nat)

  /** Array.IndexOf: the first position holding s, or -1. */
  function IndexOf(vocab: seq<string>, s: string): (r: int)
    ensures -1 <= r < |vocab|
    ensures r == -1 <==> s !in vocab
    ensures r >= 0 ==> vocab[r] == s && forall j :: 0 <= j < r ==> vocab[j] != s
  {
    if |vocab| == 0 then -1
    else if vocab[0] == s then 0
    else
      var k := IndexOf(vocab[1..], s);
      if k < 0 then -1 else k + 1
  }

  /** The vocabulary string looked up for the characters [start, end) of
      a word: the plain prefix at the start, "##" and the substring
      afterwards. */
  function PieceText(w: string, start: int, end: int): string
    requires 0 <= start <= end <= |w|
  {
    if start == 0 then w[..end] else "##" + w[start..end]
  }

  /** end is the longest match from start: its piece is in the vocabulary
      and no longer piece from start is. */
  ghost predicate Longest(vocab: seq<string>, w: string, start: int, end: int) {
    && 0 <= start <= end <= |w|
    && PieceText(w, start, end) in vocab
    && forall j :: end < j <= |w| ==> PieceText(w, start, j) !in vocab
  }

  /** No piece at all starts at start, not even the zero-length one. */
  ghost predicate NoMatch(vocab: seq<string>, w: string, start: int)
    requires 0 <= start <= |w|
  {
    forall j :: start <= j <= |w| ==> PieceText(w, start, j) !in vocab
  }

  /** The count-down of the inner for loop: the largest j in [start, i]
      whose piece is in the vocabulary, or start - 1 when there is none. */
  function LongestMatch(vocab: seq<string>, w: string, start: int, i: int): (e: int)
    requires 0 <= start <= |w| && start - 1 <= i <= |w|
    ensures start - 1 <= e <= i
    ensures e >= start ==> PieceText(w, start, e) in vocab
    ensures forall j :: e < j <= i ==> PieceText(w, start, j) !in vocab
    decreases i - start
  {
    if i < start then start - 1
    else if PieceText(w, start, i) in vocab then i
    else LongestMatch(vocab, w, start, i - 1)
  }

  /** The spans cover [from, |w|) one after another. */
  ghost predicate Tiles(w: string, spans: seq<Span>, from: int) {
    && |spans| > 0
    && spans[0].start == from
    && spans[|spans| - 1].end == |w|
    && (forall k :: 0 <= k < |spans| ==> spans[k].start <= spans[k].end <= |w|)
    && (forall k :: 0 <= k < |spans| - 1 ==> spans[k].end == spans[k + 1].start)
  }

  /** The greedy longest-match segmentation of w from position from: the
      spans tile the rest of the word, each is the longest match where it
      starts, none is empty unless the word is, and only the last one
      reaches the end of the word. */
  ghost predicate Greedy(vocab: seq<string>, w: string, spans: seq<Span>, from: int) {
    && Tiles(w, spans, from)
    && (forall k :: 0 <= k < |spans| ==> Longest(vocab, w, spans[k].start, spans[k].end))
    && (forall k :: 0 <= k < |spans| ==> spans[k].start < spans[k].end || |w| == 0)
    && (forall k :: 0 <= k < |spans| - 1 ==> spans[k].end < |w|)
  }

  /** The loop over one word, from position start (0 for a fresh word). */
  function TokenizeWord(vocab: seq<string>, w: string, start: nat): (r: Outcome<seq<Span>>)
    requires start == 0 || start < |w|
    ensures r.Done? && |r.value| > 0 ==> Greedy(vocab, w, r.value, start)
    ensures r.Done? && |r.value| == 0 ==> start == 0 && NoMatch(vocab, w, 0)
    ensures r.OutOfRange? ==> exists p :: start <= p < |w| && 0 < p && NoMatch(vocab, w, p)
    ensures r.Diverges? ==> "" in vocab || "##" in vocab
    decreases |w| - start
  {
    var e := LongestMatch(vocab, w, start, |w|);
    if e < start then
      if start == 0 then Done([])
      else
        assert NoMatch(vocab, w, start);
        OutOfRange
    else if e == |w| then Done([Span(start, e)])
    else if e == start then
      assert PieceText(w, start, e) == (if start == 0 then "" else "##");
      Diverges
    else
      match TokenizeWord(vocab, w, e)
      case Done(rest) =>
        var spans := [Span(start, e)] + rest;
        GreedyCons(vocab, w, start, e, rest);
        Done(spans)
      case OutOfRange => OutOfRange
      case Diverges => Diverges
  }

  lemma {:induction false} GreedyCons(vocab: seq<string>, w: string, start: nat, e: nat, rest: seq<Span>)
    requires start < e < |w|
    requires Longest(vocab, w, start, e)
    requires Greedy(vocab, w, rest, e)
    ensures Greedy(vocab, w, [Span(start, e)] + rest, start)
  {
    var spans := [Span(start, e)] + rest;
    forall k | 0 <= k < |spans|
      ensures Longest(vocab, w, spans[k].start, spans[k].end)
      ensures spans[k].start < spans[k].end || |w| == 0
      ensures spans[k].start <= spans[k].end <= |w|
    {
      if k > 0 {
        assert spans[k] == rest[k - 1];
      }
    }
    forall k | 0 <= k < |spans| - 1
      ensures spans[k].end == spans[k + 1].start
      ensures spans[k].end < |w|
    {
      assert spans[k + 1] == rest[k];
      if k > 0 {
        assert spans[k] == rest[k - 1];
      }
    }
  }

  /** Greedy segmentation is unique: whenever spans is the greedy
      segmentation from start, the tokenizer produces exactly it. Together
      with the contract of TokenizeWord this characterises its result. */
  lemma {:induction false} GreedyIsComputed(vocab: seq<string>, w: string, spans: seq<Span>, start: nat)
    requires start == 0 || start < |w|
    requires Greedy(vocab, w, spans, start)
    ensures TokenizeWord(vocab, w, start) == Done(spans)
    decreases |spans|
  {
    var e := spans[0].end;
    LongestMatchIsLongest(vocab, w, start, e);
    if e < |w| {
      assert |spans| > 1;
      var rest := spans[1..];
      assert Greedy(vocab, w, rest, e) by {
        forall k | 0 <= k < |rest| - 1
          ensures rest[k].end == rest[k + 1].start
        {
          assert rest[k] == spans[k + 1] && rest[k + 1] == spans[k + 2];
        }
        forall k | 0 <= k < |rest|
          ensures rest[k] == spans[k + 1]
        {
        }
      }
      GreedyIsComputed(vocab, w, rest, e);
      assert spans == [Span(start, e)] + rest;
    } else {
      assert |spans| == 1;
      assert spans == [Span(start, e)];
    }
  }

  lemma {:induction false} LongestMatchIsLongest(vocab: seq<string>, w: string, start: nat, e: nat)
    requires Longest(vocab, w, start, e)
    ensures LongestMatch(vocab, w, start, |w|) == e
  {
  }

  /** A word that is itself a vocabulary entry is one piece. */
  lemma {:induction false} WordInVocabulary(vocab: seq<string>, w: string)
    requires w in vocab
    ensures TokenizeWord(vocab, w, 0) == Done([Span(0, |w|)])
  {
    assert PieceText(w, 0, |w|) == w;
  }

  /** A word none of whose prefixes, down to the empty one, is in the
      vocabulary contributes nothing; conversely that is the only way a
      word yields no piece. */
  lemma {:induction false} UnmatchedWordIsDropped(vocab: seq<string>, w: string)
    ensures TokenizeWord(vocab, w, 0) == Done([]) <==> NoMatch(vocab, w, 0)
  {
    if NoMatch(vocab, w, 0) {
      assert LongestMatch(vocab, w, 0, |w|) == -1;
    }
  }

  /** After a first piece, a position from which not even "##" matches
      makes Substring throw. */
  lemma {:induction false} UnmatchedSuffixThrows(vocab: seq<string>, w: string, e: nat)
    requires 0 < e < |w|
    requires Longest(vocab, w, 0, e)
    requires NoMatch(vocab, w, e)
    ensures TokenizeWord(vocab, w, 0) == OutOfRange
  {
    LongestMatchIsLongest(vocab, w, 0, e);
    assert LongestMatch(vocab, w, e, |w|) == e - 1;
  }

  /** With "" in the vocabulary, a non-empty word with no non-empty prefix
      in the vocabulary matches "" over and over. */
  lemma {:induction false} EmptyPieceDiverges(vocab: seq<string>, w: string)
    requires "" in vocab && |w| > 0
    requires forall j :: 0 < j <= |w| ==> w[..j] !in vocab
    ensures TokenizeWord(vocab, w, 0) == Diverges
  {
    assert PieceText(w, 0, 0) == "";
    assert forall j :: 0 < j <= |w| ==> PieceText(w, 0, j) == w[..j];
    assert Longest(vocab, w, 0, 0);
    LongestMatchIsLongest(vocab, w, 0, 0);
  }

  /** With "##" in the vocabulary, a continuation with no non-empty match
      matches "##" over and over. */
  lemma {:induction false} EmptyContinuationDiverges(vocab: seq<string>, w: string, e: nat)
    requires "##" in vocab
    requires 0 < e < |w|
    requires Longest(vocab, w, 0, e)
    requires forall j :: e < j <= |w| ==> "##" + w[e..j] !in vocab
    ensures TokenizeWord(vocab, w, 0) == Diverges
  {
    LongestMatchIsLongest(vocab, w, 0, e);
    assert PieceText(w, e, e) == "##";
    assert forall j :: e < j <= |w| ==> PieceText(w, e, j) == "##" + w[e..j];
    assert Longest(vocab, w, e, e);
    LongestMatchIsLongest(vocab, w, e, e);
  }

  /** The pieces of a segmentation with their "##" marks removed. */
  function Stems(w: string, spans: seq<Span>): string
    requires forall k :: 0 <= k < |spans| ==> spans[k].start <= spans[k].end <= |w|
  {
    if |spans| == 0 then "" else w[spans[0].start..spans[0].end] + Stems(w, spans[1..])
  }

  /** Reverses the marking: keeps the first piece, drops the "##" of
      every later one, and concatenates. */
  function Detokenize(pieces: seq<string>): string
    requires forall k :: 0 < k < |pieces| ==> |pieces[k]| >= 2
  {
    if |pieces| == 0 then "" else pieces[0] + Unmark(pieces[1..])
  }

  function Unmark(pieces: seq<string>): string
    requires forall k :: 0 <= k < |pieces| ==> |pieces[k]| >= 2
  {
    if |pieces| == 0 then "" else pieces[0][2..] + Unmark(pieces[1..])
  }

  /** The strings looked up for a segmentation. */
  function PieceTexts(w: string, spans: seq<Span>): (ps: seq<string>)
    requires forall k :: 0 <= k < |spans| ==> spans[k].start <= spans[k].end <= |w|
    ensures |ps| == |spans|
    ensures forall k :: 0 <= k < |spans| ==> ps[k] == PieceText(w, spans[k].start, spans[k].end)
  {
    if |spans| == 0 then [] else [PieceText(w, spans[0].start, spans[0].end)] + PieceTexts(w, spans[1..])
  }

  lemma {:induction false} TilesStems(w: string, spans: seq<Span>, from: nat)
    requires Tiles(w, spans, from)
    ensures Stems(w, spans) == w[from..]
    decreases |spans|
  {
    if |spans| > 1 {
      var rest := spans[1..];
      assert Tiles(w, rest, spans[0].end) by {
        forall k | 0 <= k < |rest| - 1
          ensures rest[k].end == rest[k + 1].start
        {
          assert rest[k] == spans[k + 1] && rest[k + 1] == spans[k + 2];
        }
        forall k | 0 <= k < |rest|
          ensures rest[k] == spans[k + 1]
        {
        }
      }
      TilesStems(w, rest, spans[0].end);
      assert w[from..] == w[from..spans[0].end] + w[spans[0].end..];
    }
  }

  /** A fully matched word is recovered from its pieces: every piece after
      the first carries the "##" mark, and dropping the marks and
      concatenating gives the word back. */
  lemma {:induction false} PiecesRestoreWord(vocab: seq<string>, w: string, spans: seq<Span>)
    requires TokenizeWord(vocab, w, 0) == Done(spans) && |spans| > 0
    ensures forall k :: 0 < k < |spans| ==>
      |PieceTexts(w, spans)[k]| >= 2 && PieceTexts(w, spans)[k][..2] == "##"
    ensures Detokenize(PieceTexts(w, spans)) == w
  {
    assert Greedy(vocab, w, spans, 0);
    TiledPiecesRestore(w, spans);
  }

  /** The same for any tiling from 0 whose inner pieces are not empty. */
  lemma {:induction false} TiledPiecesRestore(w: string, spans: seq<Span>)
    requires Tiles(w, spans, 0)
    requires forall k :: 0 <= k < |spans| - 1 ==> spans[k].start < spans[k].end
    ensures forall k :: 0 < k < |spans| ==>
      |PieceTexts(w, spans)[k]| >= 2 && PieceTexts(w, spans)[k][..2] == "##"
    ensures Detokenize(PieceTexts(w, spans)) == w
  {
    var ps := PieceTexts(w, spans);
    var rest := spans[1..];
    forall k | 0 <= k < |rest|
      ensures rest[k].start > 0
    {
      assert rest[k] == spans[k + 1];
      assert spans[k + 1].start == spans[k].end > spans[k].start;
    }
    UnmarkStems(w, rest);
    assert PieceTexts(w, rest) == ps[1..];
    TilesStems(w, spans, 0);
    assert w[..spans[0].end] == w[spans[0].start..spans[0].end];
  }

  lemma {:induction false} UnmarkStems(w: string, spans: seq<Span>)
    requires forall k :: 0 <= k < |spans| ==> 0 < spans[k].start <= spans[k].end <= |w|
    ensures forall k :: 0 <= k < |spans| ==>
      |PieceTexts(w, spans)[k]| >= 2 && PieceTexts(w, spans)[k][..2] == "##"
    ensures Unmark(PieceTexts(w, spans)) == Stems(w, spans)
    decreases |spans|
  {
    if |spans| > 0 {
      UnmarkStems(w, spans[1..]);
      assert PieceTexts(w, spans)[1..] == PieceTexts(w, spans[1..]);
    }
  }

  /** id is where Array.IndexOf finds its own entry: the first position of
      that string in the vocabulary. */
  predicate IsFirstIndex(vocab: seq<string>, id: int) {
    0 <= id < |vocab| && forall j :: 0 <= j < id ==> vocab[j] != vocab[id]
  }

  /** The ids a segmented word adds. */
  function WordIds(vocab: seq<string>, w: string, spans: seq<Span>): (ids: seq<int>)
    requires forall k :: 0 <= k < |spans| ==> spans[k].start <= spans[k].end <= |w|
    requires forall k :: 0 <= k < |spans| ==> PieceText(w, spans[k].start, spans[k].end) in vocab
    ensures |ids| == |spans|
    ensures forall k :: 0 <= k < |ids| ==>
      IsFirstIndex(vocab, ids[k]) && vocab[ids[k]] == PieceText(w, spans[k].start, spans[k].end)
  {
    if |spans| == 0 then []
    else [IndexOf(vocab, PieceText(w, spans[0].start, spans[0].end))] + WordIds(vocab, w, spans[1..])
  }

  /** The ids one word adds, or the failure of its loop. */
  function WordOutcome(vocab: seq<string>, w: string): (r: Outcome<seq<int>>)
    ensures r.Done? ==> forall k :: 0 <= k < |r.value| ==> IsFirstIndex(vocab, r.value[k])
  {
    match TokenizeWord(vocab, w, 0)
    case Done(spans) => Done(WordIds(vocab, w, spans))
    case OutOfRange => OutOfRange
    case Diverges => Diverges
  }

  /** Outcome of tokenizing one list of words and then another: the ids in
      order, or the first failure. */
  function Then(a: Outcome<seq<int>>, b: Outcome<seq<int>>): (r: Outcome<seq<int>>)
    ensures r.Done? <==> a.Done? && b.Done?
    ensures r.Done? ==> r.value == a.value + b.value
    ensures !a.Done? ==> r == a
    ensures a.Done? && !b.Done? ==> r == b
  {
    match a
    case Done(x) => (match b case Done(y) => Done(x + y) case OutOfRange => OutOfRange case Diverges => Diverges)
    case OutOfRange => OutOfRange
    case Diverges => Diverges
  }

  /** The foreach over the words: ids of each word in turn; the first word
      that throws or loops decides the outcome. */
  function TokenizeWords(vocab: seq<string>, words: seq<string>): (r: Outcome<seq<int>>)
    ensures r.Done? ==> forall k :: 0 <= k < |r.value| ==> IsFirstIndex(vocab, r.value[k])
  {
    if |words| == 0 then Done([])
    else Then(WordOutcome(vocab, words[0]), TokenizeWords(vocab, words[1..]))
  }

  /** RunMiniLM.GetTokens. */
  function GetTokens(vocab: seq<string>, text: string): (r: Outcome<seq<int>>)
    ensures r.Done? ==> |r.value| >= 2 && r.value[0] == StartToken && r.value[|r.value| - 1] == EndToken
    ensures r.Done? ==> forall k :: 0 < k < |r.value| - 1 ==> IsFirstIndex(vocab, r.value[k])
  {
    var words := Text.Split(Text.Lower(text), Text.IsWhiteSpace);
    match TokenizeWords(vocab, words)
    case Done(ids) => Done([StartToken] + ids + [EndToken])
    case OutOfRange => OutOfRange
    case Diverges => Diverges
  }

  /** Words are handled in order: the ids of earlier words precede those of
      later words, and an earlier failure wins over a later one. */
  lemma {:induction false} WordsInOrder(vocab: seq<string>, a: seq<string>, b: seq<string>)
    ensures TokenizeWords(vocab, a + b) == Then(TokenizeWords(vocab, a), TokenizeWords(vocab, b))
    decreases |a|
  {
    if |a| == 0 {
      assert a + b == b;
      if TokenizeWords(vocab, b).Done? {
        assert [] + TokenizeWords(vocab, b).value == TokenizeWords(vocab, b).value;
      }
    } else {
      assert (a + b)[0] == a[0];
      assert (a + b)[1..] == a[1..] + b;
      WordsInOrder(vocab, a[1..], b);
      ThenIsAssociative(WordOutcome(vocab, a[0]), TokenizeWords(vocab, a[1..]), TokenizeWords(vocab, b));
    }
  }

  lemma {:induction false} ThenIsAssociative(x: Outcome<seq<int>>, y: Outcome<seq<int>>, z: Outcome<seq<int>>)
    ensures Then(x, Then(y, z)) == Then(Then(x, y), z)
  {
    if x.Done? && y.Done? && z.Done? {
      assert x.value + (y.value + z.value) == (x.value + y.value) + z.value;
    }
  }

  /** Even the empty text yields the two markers, around the id of the
      empty word when "" is a vocabulary entry. */
  lemma {:induction false} EmptyText(vocab: seq<string>)
    ensures "" !in vocab ==> GetTokens(vocab, "") == Done([StartToken, EndToken])
    ensures "" in vocab ==> GetTokens(vocab, "") == Done([StartToken, IndexOf(vocab, ""), EndToken])
  {
    var words := [""];
    assert Text.Lower("") == "";
    assert Text.Split("", Text.IsWhiteSpace) == words;
    assert words[0] == "" && words[1..] == [];
    assert PieceText("", 0, 0) == "";
    var w := TokenizeWord(vocab, "", 0);
    assert TokenizeWords(vocab, words[1..]) == Done([]);
    if "" in vocab {
      assert LongestMatch(vocab, "", 0, 0) == 0;
      assert w == Done([Span(0, 0)]);
      var ids := WordIds(vocab, "", [Span(0, 0)]);
      assert ids == [IndexOf(vocab, "")];
      assert TokenizeWords(vocab, words) == Done(ids + []);
      assert [StartToken] + (ids + []) + [EndToken] == [StartToken, IndexOf(vocab, ""), EndToken];
    } else {
      assert LongestMatch(vocab, "", 0, 0) == -1;
      assert w == Done([]);
      assert WordIds(vocab, "", []) == [];
      assert TokenizeWords(vocab, words) == Done([] + []);
      assert [StartToken] + ([] + []) + [EndToken] == [StartToken, EndToken];
    }
  }

  /** A one-word text whose lower-cased word is a vocabulary entry yields
      exactly one id between the markers. */
  lemma {:induction false} SingleKnownWord(vocab: seq<string>, w: string)
    requires Text.NoSeparator(w, Text.IsWhiteSpace)
    requires Text.Lower(w) in vocab
    ensures GetTokens(vocab, w) == Done([StartToken, IndexOf(vocab, Text.Lower(w)), EndToken])
  {
    var lw := Text.Lower(w);
    assert Text.NoSeparator(lw, Text.IsWhiteSpace);
    Text.SplitNoSeparator(lw, Text.IsWhiteSpace);
    WordInVocabulary(vocab, lw);
    assert PieceText(lw, 0, |lw|) == lw;
    var words := [lw];
    assert words[0] == lw && words[1..] == [];
    var ids := WordIds(vocab, lw, [Span(0, |lw|)]);
    assert ids == [IndexOf(vocab, lw)];
    assert TokenizeWords(vocab, words[1..]) == Done([]);
    assert TokenizeWords(vocab, words) == Done(ids + []);
    assert [StartToken] + (ids + []) + [EndToken] == [StartToken, IndexOf(vocab, lw), EndToken];
  }
}
