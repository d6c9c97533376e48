/** WordpieceTokenizer: greedy longest-match-first splitting of whitespace tokens into
    vocabulary sub-tokens. */
module WordpieceTokenizer {
  import opened Results
  import opened Seqs
  import opened Tokenizer

  const DEFAULT_MAX_CHARACTERS_PER_WORD: int := 200
  const DEFAULT_UNKNOWN_TOKEN: string := "[UNK]"
  /** Prefix of every sub-token that continues a word. */
  const CONTINUATION: string := "##"

  datatype Wordpiece = Wordpiece(vocabulary: map<string, int>, unknownToken: string, maxCharactersPerWord: int)

  /** The one-argument constructor: "[UNK]" and 200 characters. */
  function WithDefaults(vocabulary: map<string, int>): (wp: Wordpiece)
    ensures wp.vocabulary == vocabulary
    ensures wp.unknownToken == "[UNK]" && wp.maxCharactersPerWord == 200
  {
    Wordpiece(vocabulary, DEFAULT_UNKNOWN_TOKEN, DEFAULT_MAX_CHARACTERS_PER_WORD)
  }

  /** The string looked up for token[start..end]: marked as a continuation unless it starts the token. */
  function Candidate(token: string, start: nat, end: nat): string
    requires start <= end <= |token|
  {
    (if start > 0 then CONTINUATION else "") + token[start..end]
  }

  /** The inner loop of splitToken: the largest end position in (start, end] whose candidate
      is a vocabulary key, if any. */
  function LongestMatch(vocabulary: map<string, int>, token: string, start: nat, end: nat): (m: Option<nat>)
    requires start <= end <= |token|
    ensures m.Some? ==> start < m.value <= end && Candidate(token, start, m.value) in vocabulary
    ensures m.Some? ==> forall e :: m.value < e <= end ==> Candidate(token, start, e) !in vocabulary
    ensures m.None? ==> forall e :: start < e <= end ==> Candidate(token, start, e) !in vocabulary
    decreases end
  {
    if end <= start then None
    else if Candidate(token, start, end) in vocabulary then Some(end)
    else LongestMatch(vocabulary, token, start, end - 1)
  }

  /** The positions the outer loop of splitToken visits from start on: each next one is the end
      of the longest match at the previous one; the last is |token| or a position with no match. */
  function Cuts(vocabulary: map<string, int>, token: string, start: nat): (cuts: seq<nat>)
    requires start <= |token|
    ensures |cuts| >= 1 && cuts[0] == start
    ensures forall i :: 0 <= i < |cuts| ==> start <= cuts[i] <= |token|
    ensures forall i, j :: 0 <= i < j < |cuts| ==> cuts[i] < cuts[j]
    decreases |token| - start
  {
    if start == |token| then [start]
    else match LongestMatch(vocabulary, token, start, |token|)
      case None => [start]
      case Some(end) => [start] + Cuts(vocabulary, token, end)
  }

  predicate ValidCuts(token: string, cuts: seq<nat>) {
    && |cuts| >= 1
    && (forall i :: 0 <= i < |cuts| ==> cuts[i] <= |token|)
    && (forall i, j :: 0 <= i < j < |cuts| ==> cuts[i] < cuts[j])
  }

  /** The sub-tokens between consecutive cut positions. */
  function Pieces(token: string, cuts: seq<nat>): (pieces: seq<string>)
    requires ValidCuts(token, cuts)
    ensures |pieces| == |cuts| - 1
  {
    seq(|cuts| - 1, i requires 0 <= i < |cuts| - 1 => Candidate(token, cuts[i], cuts[i + 1]))
  }

  function Last(cuts: seq<nat>): nat
    requires |cuts| >= 1
  {
    cuts[|cuts| - 1]
  }

  /** What the outer loop of splitToken emits from position start on: the greedy pieces,
      then the unknown token if matching stopped before the end of the token. */
  function Remaining(wp: Wordpiece, token: string, start: nat): seq<string>
    requires start <= |token|
  {
    var cuts := Cuts(wp.vocabulary, token, start);
    Pieces(token, cuts) + (if Last(cuts) < |token| then [wp.unknownToken] else [])
  }

  /** The sub-tokens splitToken produces for one token. */
  function Subtokens(wp: Wordpiece, token: string): (r: seq<string>)
    ensures |token| > wp.maxCharactersPerWord ==> r == [wp.unknownToken]
    ensures |token| <= wp.maxCharactersPerWord ==>
      var cuts := Cuts(wp.vocabulary, token, 0);
      |r| == |cuts| - 1 + (if Last(cuts) < |token| then 1 else 0)
  {
    if |token| > wp.maxCharactersPerWord then [wp.unknownToken]
    else Remaining(wp, token, 0)
  }

  /** Whether splitToken gives up on the token: it is too long, or at some position no
      candidate is in the vocabulary. */
  predicate Misses(wp: Wordpiece, token: string) {
    |token| > wp.maxCharactersPerWord || Last(Cuts(wp.vocabulary, token, 0)) < |token|
  }

  /** One step of the outer loop: nothing left at the end of the token; the unknown token
      when no candidate matches; otherwise the longest match, then the rest. */
  lemma RemainingStep(wp: Wordpiece, token: string, start: nat)
    requires start <= |token|
    ensures start == |token| ==> Remaining(wp, token, start) == []
    ensures start < |token| && LongestMatch(wp.vocabulary, token, start, |token|).None? ==>
      Remaining(wp, token, start) == [wp.unknownToken]
    ensures start < |token| && LongestMatch(wp.vocabulary, token, start, |token|).Some? ==>
      var end := LongestMatch(wp.vocabulary, token, start, |token|).value;
      Remaining(wp, token, start) == [Candidate(token, start, end)] + Remaining(wp, token, end)
  {
    var cuts := Cuts(wp.vocabulary, token, start);
    if start < |token| {
      var m := LongestMatch(wp.vocabulary, token, start, |token|);
      if m.Some? {
        var rest := Cuts(wp.vocabulary, token, m.value);
        assert cuts == [start] + rest;
        PiecesCons(token, start, rest);
        assert Last(cuts) == Last(rest);
      } else {
        assert cuts == [start];
      }
    } else {
      assert cuts == [start];
    }
  }

  lemma PiecesCons(token: string, start: nat, rest: seq<nat>)
    requires ValidCuts(token, rest) && start < rest[0]
    ensures ValidCuts(token, [start] + rest)
    ensures Pieces(token, [start] + rest) == [Candidate(token, start, rest[0])] + Pieces(token, rest)
  {
    var cuts := [start] + rest;
    var p, q := Pieces(token, cuts), [Candidate(token, start, rest[0])] + Pieces(token, rest);
    assert |p| == |q|;
    forall i | 0 <= i < |p| ensures p[i] == q[i] {
      if i > 0 { assert cuts[i] == rest[i - 1] && cuts[i + 1] == rest[i]; }
    }
  }

  /** The inner loop of splitToken: try candidates from the end of the token down to start + 1
      and stop at the first vocabulary key. */
  method MatchFrom(wp: Wordpiece, token: string, start: nat) returns (found: bool, end: nat)
    requires start < |token|
    ensures found <==> LongestMatch(wp.vocabulary, token, start, |token|).Some?
    ensures found ==> end == LongestMatch(wp.vocabulary, token, start, |token|).value
  {
    end := |token|;
    found := false;
    while start < end
      invariant start <= end <= |token|
      invariant LongestMatch(wp.vocabulary, token, start, |token|) == LongestMatch(wp.vocabulary, token, start, end)
      decreases end
    {
      var substring := Candidate(token, start, end);
      if substring in wp.vocabulary {
        found := true;
        break;
      }
      end := end - 1;
    }
  }

  /** WordpieceTokenizer.splitToken: the outer loop emits the longest match and moves on, or
      emits the unknown token and stops. */
  method SplitToken(wp: Wordpiece, token: string) returns (subtokens: seq<string>)
    ensures subtokens == Subtokens(wp, token)
  {
    if |token| > wp.maxCharactersPerWord {
      return [wp.unknownToken];
    }
    subtokens := [];
    var start: nat := 0;
    while start < |token|
      invariant start <= |token|
      invariant subtokens + Remaining(wp, token, start) == Subtokens(wp, token)
      decreases |token| - start
    {
      RemainingStep(wp, token, start);
      var found, end := MatchFrom(wp, token, start);
      if !found {
        subtokens := subtokens + [wp.unknownToken];
        break;
      }
      subtokens := subtokens + [Candidate(token, start, end)];
      start := end;
    }
    RemainingStep(wp, token, start);
  }

  /** Each cut after the first is the longest match at the cut before it. */
  lemma {:induction false} CutIsLongestMatch(vocabulary: map<string, int>, token: string, start: nat, i: nat)
    requires start <= |token| && i < |Cuts(vocabulary, token, start)| - 1
    ensures var cuts := Cuts(vocabulary, token, start);
      LongestMatch(vocabulary, token, cuts[i], |token|) == Some(cuts[i + 1])
    decreases i
  {
    if i > 0 {
      var end := LongestMatch(vocabulary, token, start, |token|).value;
      CutIsLongestMatch(vocabulary, token, end, i - 1);
    }
  }

  /** Matching stops before the end of the token only where no candidate matches. */
  lemma {:induction false} LastCutHasNoMatch(vocabulary: map<string, int>, token: string, start: nat)
    requires start <= |token|
    ensures var last := Last(Cuts(vocabulary, token, start));
      last < |token| ==> LongestMatch(vocabulary, token, last, |token|).None?
    decreases |token| - start
  {
    if start < |token| {
      var m := LongestMatch(vocabulary, token, start, |token|);
      if m.Some? {
        LastCutHasNoMatch(vocabulary, token, m.value);
        assert Last(Cuts(vocabulary, token, start)) == Last(Cuts(vocabulary, token, m.value));
      }
    }
  }

  /** Every accepted piece is the longest candidate at its start position that is in the
      vocabulary; where matching stops before the end, no candidate at all is. */
  lemma CutsAreLongestMatches(vocabulary: map<string, int>, token: string, start: nat)
    requires start <= |token|
    ensures var cuts := Cuts(vocabulary, token, start);
      forall i :: 0 <= i < |cuts| - 1 ==>
        && Candidate(token, cuts[i], cuts[i + 1]) in vocabulary
        && forall e :: cuts[i + 1] < e <= |token| ==> Candidate(token, cuts[i], e) !in vocabulary
    ensures var cuts := Cuts(vocabulary, token, start);
      Last(cuts) < |token| ==> forall e :: Last(cuts) < e <= |token| ==> Candidate(token, Last(cuts), e) !in vocabulary
  {
    var cuts := Cuts(vocabulary, token, start);
    forall i | 0 <= i < |cuts| - 1
      ensures Candidate(token, cuts[i], cuts[i + 1]) in vocabulary
      ensures forall e :: cuts[i + 1] < e <= |token| ==> Candidate(token, cuts[i], e) !in vocabulary
    {
      CutIsLongestMatch(vocabulary, token, start, i);
    }
    LastCutHasNoMatch(vocabulary, token, start);
  }

  /** Pieces before the last are vocabulary keys; the last is a key or the unknown token;
      without a miss every piece is a key. So the unknown token, when emitted for a miss,
      appears once and last. */
  lemma SubtokensInVocabulary(wp: Wordpiece, token: string)
    ensures var r := Subtokens(wp, token);
      && (forall i :: 0 <= i < |r| - 1 ==> r[i] in wp.vocabulary)
      && (|r| > 0 ==> r[|r| - 1] in wp.vocabulary || r[|r| - 1] == wp.unknownToken)
      && (!Misses(wp, token) ==> forall i :: 0 <= i < |r| ==> r[i] in wp.vocabulary)
      && (Misses(wp, token) ==> |r| > 0 && r[|r| - 1] == wp.unknownToken)
  {
    if |token| <= wp.maxCharactersPerWord {
      var cuts := Cuts(wp.vocabulary, token, 0);
      PiecesInVocabulary(wp.vocabulary, token, cuts);
      assert Subtokens(wp, token) == Pieces(token, cuts) + (if Last(cuts) < |token| then [wp.unknownToken] else []);
    }
  }

  lemma PiecesInVocabulary(vocabulary: map<string, int>, token: string, cuts: seq<nat>)
    requires cuts == Cuts(vocabulary, token, 0)
    ensures forall i :: 0 <= i < |cuts| - 1 ==> Pieces(token, cuts)[i] in vocabulary
  {
    forall i | 0 <= i < |cuts| - 1 ensures Pieces(token, cuts)[i] in vocabulary {
      CutIsLongestMatch(vocabulary, token, 0, i);
    }
  }

  /** The accepted pieces in order: the first is the start of the token as it stands, every
      later one is the next stretch of the token marked with "##". */
  lemma SubtokensPrefixes(wp: Wordpiece, token: string)
    requires |token| <= wp.maxCharactersPerWord
    ensures var cuts := Cuts(wp.vocabulary, token, 0);
      var r := Subtokens(wp, token);
      && |cuts| - 1 <= |r|
      && (|cuts| > 1 ==> r[0] == token[..cuts[1]])
      && forall i :: 1 <= i < |cuts| - 1 ==> r[i] == CONTINUATION + token[cuts[i]..cuts[i + 1]]
  {
    var cuts := Cuts(wp.vocabulary, token, 0);
    var r := Subtokens(wp, token);
    assert r[..|cuts| - 1] == Pieces(token, cuts);
  }

  /** A token over the character limit becomes the unknown token alone. */
  lemma SubtokensTooLong(wp: Wordpiece, token: string)
    requires |token| > wp.maxCharactersPerWord
    ensures Subtokens(wp, token) == [wp.unknownToken]
  {
  }

  /** The empty token yields no sub-tokens: the outer loop never runs. */
  lemma SubtokensEmpty(wp: Wordpiece)
    requires wp.maxCharactersPerWord >= 0
    ensures Subtokens(wp, "") == []
  {
    RemainingStep(wp, "", 0);
  }

  /** A token within the limit that is itself a vocabulary key is its own single piece. */
  lemma SubtokensWholeWord(wp: Wordpiece, token: string)
    requires 0 < |token| <= wp.maxCharactersPerWord
    requires token in wp.vocabulary
    ensures Subtokens(wp, token) == [token]
  {
    assert Candidate(token, 0, |token|) == token;
    RemainingStep(wp, token, 0);
    RemainingStep(wp, token, |token|);
  }

  /** A continuation piece without its "##" marker. */
  function StripContinuation(piece: string): string {
    if |piece| >= 2 && piece[..2] == CONTINUATION then piece[2..] else piece
  }

  /** Continuation pieces glued back together. */
  function Glue(pieces: seq<string>): string {
    if pieces == [] then "" else StripContinuation(pieces[0]) + Glue(pieces[1..])
  }

  /** The text a sequence of pieces spells: the first whole, the rest without their marker. */
  function Detokenize(pieces: seq<string>): string {
    if pieces == [] then "" else pieces[0] + Glue(pieces[1..])
  }

  lemma {:induction false} GluePieces(token: string, cuts: seq<nat>)
    requires ValidCuts(token, cuts) && cuts[0] > 0
    ensures Glue(Pieces(token, cuts)) == token[cuts[0]..Last(cuts)]
    decreases |cuts|
  {
    if |cuts| > 1 {
      var rest := cuts[1..];
      CutsTail(token, cuts);
      GlueStep(token, cuts[0], rest);
      GluePieces(token, rest);
      SliceJoin(token, cuts[0], rest[0], Last(rest));
    }
  }

  /** A cut sequence is its first cut followed by a shorter cut sequence. */
  lemma CutsTail(token: string, cuts: seq<nat>)
    requires ValidCuts(token, cuts) && |cuts| > 1
    ensures ValidCuts(token, cuts[1..]) && cuts[0] < cuts[1]
    ensures cuts == [cuts[0]] + cuts[1..] && Last(cuts) == Last(cuts[1..])
  {
  }

  lemma SliceJoin(s: string, a: nat, b: nat, c: nat)
    requires a <= b <= c <= |s|
    ensures s[a..b] + s[b..c] == s[a..c]
  {
  }

  /** Gluing a continuation piece in front of the rest. */
  lemma GlueStep(token: string, start: nat, rest: seq<nat>)
    requires ValidCuts(token, rest) && 0 < start < rest[0]
    ensures ValidCuts(token, [start] + rest)
    ensures Glue(Pieces(token, [start] + rest)) == token[start..rest[0]] + Glue(Pieces(token, rest))
  {
    PiecesCons(token, start, rest);
    var first, later := Candidate(token, start, rest[0]), Pieces(token, rest);
    assert ([first] + later)[1..] == later;
    assert StripContinuation(first) == token[start..rest[0]];
  }

  lemma {:induction false} DetokenizeCuts(token: string, cuts: seq<nat>)
    requires ValidCuts(token, cuts) && cuts[0] == 0
    ensures Detokenize(Pieces(token, cuts)) == token[..Last(cuts)]
  {
    if |cuts| > 1 {
      var rest := cuts[1..];
      CutsTail(token, cuts);
      PiecesCons(token, 0, rest);
      GluePieces(token, rest);
      DetokenizeCons(Candidate(token, 0, rest[0]), Pieces(token, rest));
      SliceJoin(token, 0, rest[0], Last(rest));
    }
  }

  lemma DetokenizeCons(first: string, later: seq<string>)
    ensures Detokenize([first] + later) == first + Glue(later)
  {
    assert ([first] + later)[1..] == later;
  }

  /** The greedy pieces spell exactly the part of the token they cover, from its start. */
  lemma DetokenizePieces(vocabulary: map<string, int>, token: string)
    ensures var cuts := Cuts(vocabulary, token, 0);
      Detokenize(Pieces(token, cuts)) == token[..Last(cuts)]
  {
    DetokenizeCuts(token, Cuts(vocabulary, token, 0));
  }

  /** Without a miss, removing the markers and concatenating the pieces gives back the token. */
  lemma SubtokensRoundTrip(wp: Wordpiece, token: string)
    requires !Misses(wp, token)
    ensures Detokenize(Subtokens(wp, token)) == token
  {
    var cuts := Cuts(wp.vocabulary, token, 0);
    DetokenizeCuts(token, cuts);
    var pieces := Pieces(token, cuts);
    assert Subtokens(wp, token) == pieces + [];
    assert pieces + [] == pieces;
    assert token[..Last(cuts)] == token;
  }

  /** On a miss within the limit, the pieces found so far are kept (they spell a proper prefix
      of the token) and one unknown token follows them. */
  lemma SubtokensMissKeepsPieces(wp: Wordpiece, token: string)
    requires |token| <= wp.maxCharactersPerWord && Misses(wp, token)
    ensures var r := Subtokens(wp, token);
      && |r| >= 1 && r[|r| - 1] == wp.unknownToken
      && |Detokenize(r[..|r| - 1])| < |token|
      && Detokenize(r[..|r| - 1]) == token[..|Detokenize(r[..|r| - 1])|]
  {
    var cuts := Cuts(wp.vocabulary, token, 0);
    DetokenizePieces(wp.vocabulary, token);
    var r := Subtokens(wp, token);
    assert r[..|r| - 1] == Pieces(token, cuts);
  }

  /** The splitting of Google's reference tokenization.py, which drops the pieces found
      before a miss and emits the unknown token alone. */
  function ReferenceSubtokens(wp: Wordpiece, token: string): seq<string> {
    if |token| > wp.maxCharactersPerWord then [wp.unknownToken]
    else
      var cuts := Cuts(wp.vocabulary, token, 0);
      if Last(cuts) < |token| then [wp.unknownToken] else Pieces(token, cuts)
  }

  /** This port and the reference agree exactly when there is no miss after a first piece
      has been accepted. */
  lemma SubtokensVersusReference(wp: Wordpiece, token: string)
    ensures Subtokens(wp, token) == ReferenceSubtokens(wp, token) <==>
      (|token| > wp.maxCharactersPerWord
       || Last(Cuts(wp.vocabulary, token, 0)) == |token|
       || Last(Cuts(wp.vocabulary, token, 0)) == 0)
  {
    if |token| <= wp.maxCharactersPerWord {
      var cuts := Cuts(wp.vocabulary, token, 0);
      if Last(cuts) < |token| {
        var p := Pieces(token, cuts);
        if Last(cuts) == 0 {
          assert |cuts| == 1;
        } else {
          assert |cuts| > 1;
          assert |p + [wp.unknownToken]| > 1;
        }
      }
    }
  }

  /** The divergence on a concrete case: with only "un" in the vocabulary, this port emits
      ["un", "[UNK]"] for "unaffable" where the reference emits ["[UNK]"]. */
  lemma KeepsPiecesBeforeMiss()
    ensures Subtokens(WithDefaults(map["un" := 0]), "unaffable") == ["un", "[UNK]"]
    ensures ReferenceSubtokens(WithDefaults(map["un" := 0]), "unaffable") == ["[UNK]"]
  {
    var wp := WithDefaults(map["un" := 0]);
    var token := "unaffable";
    var m := LongestMatch(wp.vocabulary, token, 0, |token|);
    assert Candidate(token, 0, 2) == "un";
    assert m == Some(2);
    assert LongestMatch(wp.vocabulary, token, 2, |token|) == None;
    RemainingStep(wp, token, 0);
    RemainingStep(wp, token, 2);
  }

  /** splitToken applied to every token, in order. */
  function SplitAll(wp: Wordpiece, tokens: seq<string>): (r: seq<seq<string>>)
    ensures |r| == |tokens|
  {
    seq(|tokens|, i requires 0 <= i < |tokens| => Subtokens(wp, tokens[i]))
  }

  /** tokenize(String): whitespace tokens, each split, flattened in order. */
  function Tokenize(wp: Wordpiece, sequence: string): (r: seq<string>)
    ensures forall piece :: piece in r <==>
      exists i :: 0 <= i < |WhitespaceTokenize(sequence)| && piece in Subtokens(wp, WhitespaceTokenize(sequence)[i])
  {
    var words := WhitespaceTokenize(sequence);
    var split := SplitAll(wp, words);
    assert forall piece :: piece in Flatten(split) <==> exists i :: 0 <= i < |split| && piece in split[i] by {
      forall piece { FlattenMembers(split, piece); }
    }
    assert forall i :: 0 <= i < |split| ==> split[i] == Subtokens(wp, words[i]);
    Flatten(split)
  }

  /** tokenize(String...): whitespace-split every sequence, then split and flatten each. */
  function TokenizeBatch(wp: Wordpiece, sequences: seq<string>): (r: seq<seq<string>>)
    ensures |r| == |sequences|
  {
    var tokens := seq(|sequences|, i requires 0 <= i < |sequences| => WhitespaceTokenize(sequences[i]));
    seq(|tokens|, i requires 0 <= i < |tokens| => Flatten(SplitAll(wp, tokens[i])))
  }

  /** The batch form gives one result per input, in input order, each the single form's. */
  lemma TokenizeBatchRows(wp: Wordpiece, sequences: seq<string>)
    ensures |TokenizeBatch(wp, sequences)| == |sequences|
    ensures forall i :: 0 <= i < |sequences| ==> TokenizeBatch(wp, sequences)[i] == Tokenize(wp, sequences[i])
  {
  }

  /** Every sub-token a sequence yields is a vocabulary key or the unknown token. */
  lemma TokenizeInVocabulary(wp: Wordpiece, sequence: string)
    ensures forall t :: t in Tokenize(wp, sequence) ==> t in wp.vocabulary || t == wp.unknownToken
  {
    var parts := SplitAll(wp, WhitespaceTokenize(sequence));
    var words := WhitespaceTokenize(sequence);
    forall t | t in Tokenize(wp, sequence) ensures t in wp.vocabulary || t == wp.unknownToken {
      FlattenMembers(parts, t);
      var i :| 0 <= i < |parts| && t in parts[i];
      var r := Subtokens(wp, words[i]);
      assert parts[i] == r;
      SubtokensInVocabulary(wp, words[i]);
      var k :| 0 <= k < |r| && r[k] == t;
      assert k < |r| - 1 || k == |r| - 1;
    }
  }
}
