/** FullTokenizer: vocabulary loading, the BasicTokenizer -> WordpieceTokenizer composition,
    and the conversion of sub-tokens to ids. */
module FullTokenizer {
  import opened Results
  import opened Seqs
  import opened Tokenizer
  import WordpieceTokenizer

  /** The BasicTokenizer stage, whose code is not part of this model: any function from a
      text to its coarse tokens. Its batch form is taken to apply it to each text in turn. */
  type Basic = string -> seq<string>

  datatype Full = Full(basic: Basic, vocabulary: map<string, int>, wordpiece: WordpieceTokenizer.Wordpiece)

  /** The key of each vocabulary line: the line trimmed. */
  function Keys(lines: seq<string>): (keys: seq<string>)
    ensures |keys| == |lines| && forall i :: 0 <= i < |lines| ==> keys[i] == Trim(lines[i])
  {
    seq(|lines|, i requires 0 <= i < |lines| => Trim(lines[i]))
  }

  /** Each key mapped to its position, a later position overwriting an earlier one. */
  function LastIndex(keys: seq<string>): map<string, int>
  {
    if keys == [] then map[]
    else LastIndex(keys[..|keys| - 1])[keys[|keys| - 1] := |keys| - 1]
  }

  /** The vocabulary read from the given lines: the trimmed line maps to its 0-based line
      number, a later duplicate overwriting an earlier one. */
  function VocabularyOf(lines: seq<string>): (vocabulary: map<string, int>)
    ensures |vocabulary| <= |lines|
    ensures forall k :: k in vocabulary ==> 0 <= vocabulary[k] < |lines|
  {
    var keys := Keys(lines);
    LastIndexSize(keys);
    assert forall k :: k in LastIndex(keys) ==> 0 <= LastIndex(keys)[k] < |lines| by {
      forall k | k in LastIndex(keys) { LastIndexIsLast(keys, k); }
    }
    LastIndex(keys)
  }

  /** The keys of LastIndex(keys) are exactly the elements of keys. */
  lemma {:induction false} LastIndexKeys(keys: seq<string>)
    ensures LastIndex(keys).Keys == set i | 0 <= i < |keys| :: keys[i]
  {
    if keys != [] {
      var init := keys[..|keys| - 1];
      LastIndexKeys(init);
      var left, right := LastIndex(keys).Keys, set i | 0 <= i < |keys| :: keys[i];
      forall k | k in left ensures k in right {
        if k != keys[|keys| - 1] {
          var i :| 0 <= i < |init| && init[i] == k;
          assert keys[i] == k;
        }
      }
      forall k | k in right ensures k in left {
        var i :| 0 <= i < |keys| && keys[i] == k;
        if i < |init| { assert init[i] == k; }
      }
    }
  }

  /** The id of a key is the index of its last occurrence. */
  lemma {:induction false} LastIndexIsLast(keys: seq<string>, k: string)
    requires k in LastIndex(keys)
    ensures 0 <= LastIndex(keys)[k] < |keys| && keys[LastIndex(keys)[k]] == k
    ensures forall j :: LastIndex(keys)[k] < j < |keys| ==> keys[j] != k
  {
    var n := |keys| - 1;
    var init := keys[..n];
    if keys[n] != k {
      LastIndexIsLast(init, k);
      var id := LastIndex(init)[k];
      assert keys[id] == init[id];
      forall j | id < j < |keys| ensures keys[j] != k {
        if j < n { assert keys[j] == init[j]; }
      }
    }
  }

  /** At most one key per line. */
  lemma {:induction false} LastIndexSize(keys: seq<string>)
    ensures |LastIndex(keys)| <= |keys|
  {
    if keys != [] {
      LastIndexSize(keys[..|keys| - 1]);
    }
  }

  /** What the vocabulary holds, stated without the recursion: its keys are the trimmed lines,
      a key's id is the index of the last line trimming to it, so every id is below the line
      count and there are no more keys than lines. */
  lemma VocabularyOfLines(lines: seq<string>)
    ensures VocabularyOf(lines).Keys == set i | 0 <= i < |lines| :: Trim(lines[i])
    ensures forall k :: k in VocabularyOf(lines) ==>
      && 0 <= VocabularyOf(lines)[k] < |lines|
      && Trim(lines[VocabularyOf(lines)[k]]) == k
      && (forall j :: VocabularyOf(lines)[k] < j < |lines| ==> Trim(lines[j]) != k)
    ensures |VocabularyOf(lines)| <= |lines|
  {
    var keys := Keys(lines);
    assert VocabularyOf(lines) == LastIndex(keys);
    LastIndexKeys(keys);
    forall k | k in VocabularyOf(lines)
      ensures 0 <= VocabularyOf(lines)[k] < |lines| && Trim(lines[VocabularyOf(lines)[k]]) == k
      ensures forall j :: VocabularyOf(lines)[k] < j < |lines| ==> Trim(lines[j]) != k
    {
      LastIndexIsLast(keys, k);
    }
  }

  /** The duplicate-line case: for the lines "a", "b", "a", the key "a" resolves to 2, and
      id 0, though allocated, is unreachable. */
  lemma DuplicateLineShadows()
    ensures VocabularyOf(["a", "b", "a"]) == map["a" := 2, "b" := 1]
    ensures 0 !in VocabularyOf(["a", "b", "a"]).Values
  {
    var keys := ["a", "b", "a"];
    assert Trim("a") == "a" && Trim("b") == "b";
    assert Keys(["a", "b", "a"]) == keys;
    assert keys[..2] == ["a", "b"] && keys[..2][..1] == ["a"] && keys[..2][..1][..0] == [];
    assert LastIndex(["a"]) == map["a" := 0];
    assert LastIndex(["a", "b"]) == map["a" := 0, "b" := 1];
    assert LastIndex(keys) == map["a" := 0, "b" := 1]["a" := 2];
    var v := VocabularyOf(["a", "b", "a"]);
    assert v == map["a" := 2, "b" := 1];
  }

  /** FullTokenizer.loadVocabulary over the lines of the vocabulary file: put each trimmed
      line with a counter that advances on every line. */
  method LoadVocabulary(lines: seq<string>) returns (vocabulary: map<string, int>)
    ensures vocabulary == VocabularyOf(lines)
    ensures forall k :: k in vocabulary ==> 0 <= vocabulary[k] < |lines| && Trim(lines[vocabulary[k]]) == k
    ensures |vocabulary| <= |lines|
  {
    ghost var keys := Keys(lines);
    vocabulary := map[];
    var index := 0;
    while index < |lines|
      invariant 0 <= index <= |lines|
      invariant vocabulary == LastIndex(keys[..index])
    {
      assert keys[..index + 1][..index] == keys[..index];
      vocabulary := vocabulary[Trim(lines[index]) := index];
      index := index + 1;
    }
    assert keys[..index] == keys;
    VocabularyOfLines(lines);
  }

  /** The constructor: load the vocabulary, then give the WordPiece stage the same map with
      the default unknown token "[UNK]" and limit of 200 characters. */
  method New(lines: seq<string>, basic: Basic) returns (t: Full)
    ensures t.basic == basic
    ensures t.vocabulary == VocabularyOf(lines)
    ensures t.wordpiece.vocabulary == t.vocabulary
    ensures t.wordpiece.unknownToken == "[UNK]" && t.wordpiece.maxCharactersPerWord == 200
  {
    var vocabulary := LoadVocabulary(lines);
    t := Full(basic, vocabulary, WordpieceTokenizer.WithDefaults(vocabulary));
  }

  /** FullTokenizer.convert: the id of every token, or the lookup failure of the first
      token that is not a vocabulary key. */
  function Convert(vocabulary: map<string, int>, tokens: seq<string>): (r: Result<seq<int>>)
    ensures r.Success? <==> forall i :: 0 <= i < |tokens| ==> tokens[i] in vocabulary
    ensures r.Success? ==> |r.value| == |tokens| && forall i :: 0 <= i < |tokens| ==> r.value[i] == vocabulary[tokens[i]]
    ensures r.Failure? ==> exists i :: 0 <= i < |tokens| && tokens[i] !in vocabulary && r.error == LookupError(tokens[i])
                                       && (forall j :: 0 <= j < i ==> tokens[j] in vocabulary)
  {
    if tokens == [] then Success([])
    else if tokens[0] !in vocabulary then Failure(LookupError(tokens[0]))
    else match Convert(vocabulary, tokens[1..])
      case Success(ids) => Success([vocabulary[tokens[0]]] + ids)
      case Failure(e) => Failure(e)
  }

  /** tokenize(String): the basic tokens, each run through the WordPiece batch form, flattened. */
  function Tokenize(t: Full, sequence: string): (r: seq<string>)
    ensures forall token :: token in r <==>
      exists i :: 0 <= i < |t.basic(sequence)| && token in WordpieceTokenizer.Tokenize(t.wordpiece, t.basic(sequence)[i])
  {
    var rows := WordpieceTokenizer.TokenizeBatch(t.wordpiece, t.basic(sequence));
    WordpieceTokenizer.TokenizeBatchRows(t.wordpiece, t.basic(sequence));
    assert forall token :: token in Flatten(rows) <==> exists i :: 0 <= i < |rows| && token in rows[i] by {
      forall token { FlattenMembers(rows, token); }
    }
    Flatten(rows)
  }

  /** tokenize(String...): one token sequence per input sequence. */
  function TokenizeBatch(t: Full, sequences: seq<string>): (r: seq<seq<string>>)
    ensures |r| == |sequences|
  {
    var coarse := seq(|sequences|, i requires 0 <= i < |sequences| => t.basic(sequences[i]));
    seq(|coarse|, i requires 0 <= i < |coarse| => Flatten(WordpieceTokenizer.TokenizeBatch(t.wordpiece, coarse[i])))
  }

  /** The batch form returns one array per input, in input order, equal to the single form. */
  lemma TokenizeBatchRows(t: Full, sequences: seq<string>)
    ensures |TokenizeBatch(t, sequences)| == |sequences|
    ensures forall i :: 0 <= i < |sequences| ==> TokenizeBatch(t, sequences)[i] == Tokenize(t, sequences[i])
  {
  }

  /** A tokenizer built by New. */
  predicate Wired(t: Full) {
    t.wordpiece.vocabulary == t.vocabulary && t.wordpiece.unknownToken == WordpieceTokenizer.DEFAULT_UNKNOWN_TOKEN
  }

  /** Every token the pipeline emits is a vocabulary key or "[UNK]". */
  lemma TokenizeInVocabulary(t: Full, sequence: string)
    requires Wired(t)
    ensures forall s :: s in Tokenize(t, sequence) ==> s in t.vocabulary || s == "[UNK]"
  {
    var rows := WordpieceTokenizer.TokenizeBatch(t.wordpiece, t.basic(sequence));
    WordpieceTokenizer.TokenizeBatchRows(t.wordpiece, t.basic(sequence));
    forall s | s in Tokenize(t, sequence) ensures s in t.vocabulary || s == "[UNK]" {
      FlattenMembers(rows, s);
      var i :| 0 <= i < |rows| && s in rows[i];
      WordpieceTokenizer.TokenizeInVocabulary(t.wordpiece, t.basic(sequence)[i]);
    }
  }

  /** With "[UNK]" in the vocabulary, converting the pipeline's own output never fails. */
  lemma ConvertTokenizeSucceeds(t: Full, sequence: string)
    requires Wired(t) && "[UNK]" in t.vocabulary
    ensures Convert(t.vocabulary, Tokenize(t, sequence)).Success?
  {
    TokenizeInVocabulary(t, sequence);
  }
}
