# easy-bert WordPiece pipeline in Dafny

This project models the tokenisation and input-encoding core of the Java bindings of
easy-bert, and proves properties of that model. The core has four stages:

- **Whitespace splitting.** `Tokenizer.whitespaceTokenize` is `sequence.trim().split("\\s+")`.
  Java's `trim` strips every character up to U+0020 from both ends. The regex class `\s` is
  space, tab, newline, vertical tab, form feed and carriage return. A string that trims to
  nothing splits to the single empty string.
- **WordPiece splitting.** `WordpieceTokenizer.splitToken` does greedy longest-match-first
  splitting. Every piece after the first is marked with `##`. A token over the character limit
  (200 by default) becomes the unknown token (`[UNK]` by default). When no candidate at the
  current position is in the vocabulary, `[UNK]` is appended and splitting stops.
- **The full tokenizer.** `FullTokenizer` does three things:
  - It loads the vocabulary: the trimmed line maps to its 0-based line index, and a later
    duplicate wins.
  - It composes the basic tokenizer with the WordPiece stage, flattening the results.
  - `convert` maps tokens to ids.
- **Input encoding.** `Bert` looks up the ids of `[CLS]` and `[SEP]` when it is built. Its
  `getInputs` encoders fill three int buffers (ids, mask, segment ids), one row of
  `maxSequenceLength` positions per sequence. Each row holds `[CLS]`, the truncated content ids,
  `[SEP]`, then zero padding.

Modules, one file each:

- `Results` (`results.dfy`): `Option`, `Result` and the error kinds.
  - `LookupError` stands for the null unboxing in `convert`.
  - `IllegalCapacity` stands for `IntBuffer.allocate` of a negative size.
  - `BufferOverflow` stands for a `put` at a full buffer.
- `Seqs` (`seqs.dfy`): flattening of nested sequences (`flatMap`, `Stream::of`).
- `Tokenizer` (`tokenizer.dfy`): `trim`, `\s`, `whitespaceTokenize`.
- `WordpieceTokenizer` (`wordpiece.dfy`): the splitter.
  - `SplitToken` is a method with the source's outer loop and its `break` on a miss. The inner
    loop, with its `found` flag and `break` on a match, is the method `MatchFrom`. `SplitToken`
    is proved equal to the specification function `Subtokens`.
  - `Subtokens` is defined through `Cuts`, the sequence of positions the outer loop visits.
- `FullTokenizer` (`full_tokenizer.dfy`): vocabulary loading, `convert` and both `tokenize`
  overloads.
  - `LoadVocabulary` is a method with the source's read loop and counter. It is proved equal to
    `VocabularyOf`.
- `Bert` (`bert.dfy`): the start and separator id lookup, and both `getInputs` encoders.
  - The encoders are methods that write into three arrays with the source's `for`, padding
    `while` and `instance` loops.
  - They are proved against the row functions `EncodeIds`, `EncodeMask` and `Zeros`.
  - The batch encoder is proved equal to `BatchOutcome`, a function that names the outcome of
    the whole loop: the allocation error, the first row that fails to convert, the row that
    overflows when `maxSequenceLength` is 0 or 1, or the concatenated rows.

The basic tokenizer (`BasicTokenizer`) is not part of this model. It is the field `basic` of
type `string -> seq<string>`, and the model makes no claim about what it does.

### Code versus the reference algorithm

`WordpieceTokenizer.java:17` names Google's reference `tokenization.py` as its origin.
On a miss, that reference discards the pieces found so far and emits the unknown token alone.
This port never clears its `Stream.Builder`: the pieces already found are kept, and `[UNK]`
follows them (`WordpieceTokenizer.java:63-82`).

The model follows the Java code. `ReferenceSubtokens` defines the reference behaviour, and
`SubtokensVersusReference` states exactly when the two agree. With only `un` in the
vocabulary, the word `unaffable` gives `["un", "[UNK]"]` here but `["[UNK]"]` in the reference
(`KeepsPiecesBeforeMiss`).

## Model

Source paths are relative to the repository root.

| member | source | states |
|---|---|---|
| Tokenizer.Trim | src/main/java/com/robrua/nlp/bert/Tokenizer.java:27 | `String.trim`: the result is a contiguous slice of the input. Everything removed before and after it is a character up to U+0020. The result neither starts nor ends with such a character. |
| Tokenizer.FieldsAreWords | src/main/java/com/robrua/nlp/bert/Tokenizer.java:27 | `split("\\s+")` of a trimmed string: every field is non-empty and holds no `\s` character. |
| Tokenizer.WhitespaceTokenize | src/main/java/com/robrua/nlp/bert/Tokenizer.java:26-28 | `sequence.trim().split("\\s+")`: `[""]` when the trimmed text is empty, otherwise the maximal runs of non-`\s` characters of the trimmed text, in order. There is always at least one element, and no element contains a `\s` character. |
| Tokenizer.WhitespaceTokenizeElements | src/main/java/com/robrua/nlp/bert/Tokenizer.java:26-28 | No element contains `\s`. If `s.trim()` is non-empty, every element is non-empty. The result is `[""]` exactly when `s.trim()` is empty. There is always at least one element. |
| Tokenizer.WhitespaceTokenizeJoin | src/main/java/com/robrua/nlp/bert/Tokenizer.java:26-28 | Joining the elements with single spaces gives `s.trim()` with every whitespace run collapsed to one space. Nothing is lost, reordered or added. |
| Tokenizer.JoinFields | src/main/java/com/robrua/nlp/bert/Tokenizer.java:27 | For a string without trailing whitespace, its fields joined by single spaces equal the string with whitespace runs collapsed and leading whitespace dropped. |
| WordpieceTokenizer.WithDefaults | src/main/java/com/robrua/nlp/bert/WordpieceTokenizer.java:34-38 | The one-argument constructor keeps the given vocabulary and uses the unknown token `[UNK]` and the limit of 200 characters. |
| WordpieceTokenizer.LongestMatch | src/main/java/com/robrua/nlp/bert/WordpieceTokenizer.java:67-78 | The inner loop returns the largest end whose candidate (with `##` when start > 0) is a vocabulary key. No longer candidate is a key. None means no candidate at all is a key. |
| WordpieceTokenizer.Cuts | src/main/java/com/robrua/nlp/bert/WordpieceTokenizer.java:64-84 | The positions the outer loop visits: they begin at start, stay within the token, and strictly increase (so the loop terminates). |
| WordpieceTokenizer.RemainingStep | src/main/java/com/robrua/nlp/bert/WordpieceTokenizer.java:66-84 | One outer iteration. At the end of the token nothing is emitted. With no match, only the unknown token is emitted. Otherwise the longest match is emitted and splitting continues from its end. |
| WordpieceTokenizer.MatchFrom | src/main/java/com/robrua/nlp/bert/WordpieceTokenizer.java:67-78 | The inner loop finds a match iff some candidate at start is a vocabulary key, and then stops at the longest one. |
| WordpieceTokenizer.Subtokens | src/main/java/com/robrua/nlp/bert/WordpieceTokenizer.java:57-86 | What `splitToken` yields: `[unknownToken]` for a token over the limit; otherwise one piece per step between consecutive cuts, plus one unknown token exactly when matching stopped before the end of the token. |
| WordpieceTokenizer.SplitToken | src/main/java/com/robrua/nlp/bert/WordpieceTokenizer.java:57-86 | The loop method returns exactly `Subtokens(wp, token)`: the greedy pieces, then the unknown token if matching stopped before the end; a too-long token gives the unknown token alone. |
| WordpieceTokenizer.CutIsLongestMatch | src/main/java/com/robrua/nlp/bert/WordpieceTokenizer.java:67-78 | Each cut after the first is where the inner loop stops when it starts at the cut before it. |
| WordpieceTokenizer.LastCutHasNoMatch | src/main/java/com/robrua/nlp/bert/WordpieceTokenizer.java:79-82 | When the outer loop stops before the end of the token, the inner loop finds no candidate there. |
| WordpieceTokenizer.CutsAreLongestMatches | src/main/java/com/robrua/nlp/bert/WordpieceTokenizer.java:67-78 | Every accepted piece is a vocabulary key, and no longer candidate at the same start is. Where matching stops early, no candidate at that position is a key. |
| WordpieceTokenizer.SubtokensInVocabulary | src/main/java/com/robrua/nlp/bert/WordpieceTokenizer.java:57-86 | All pieces but the last are vocabulary keys. The last is a key or the unknown token. Without a miss all are keys. On a miss the last is the unknown token. |
| WordpieceTokenizer.SubtokensPrefixes | src/main/java/com/robrua/nlp/bert/WordpieceTokenizer.java:70-72 | The first accepted piece is the start of the token with no added marker. Every later piece is `##` followed by the next stretch of the token. |
| WordpieceTokenizer.SubtokensTooLong | src/main/java/com/robrua/nlp/bert/WordpieceTokenizer.java:58-61 | A token longer than `maxCharactersPerWord` yields exactly `[unknownToken]`. |
| WordpieceTokenizer.SubtokensEmpty | src/main/java/com/robrua/nlp/bert/WordpieceTokenizer.java:64-66 | The empty token yields no sub-tokens. |
| WordpieceTokenizer.SubtokensWholeWord | src/main/java/com/robrua/nlp/bert/WordpieceTokenizer.java:67-75 | A non-empty token within the limit that is a vocabulary key splits to exactly `[token]`. |
| WordpieceTokenizer.DetokenizePieces | src/main/java/com/robrua/nlp/bert/WordpieceTokenizer.java:66-84 | The accepted pieces, with their `##` markers removed and concatenated, spell the prefix of the token up to the last cut. |
| WordpieceTokenizer.SubtokensRoundTrip | src/main/java/com/robrua/nlp/bert/WordpieceTokenizer.java:66-84 | Without a miss, removing the markers and concatenating the sub-tokens gives back the token. |
| WordpieceTokenizer.SubtokensMissKeepsPieces | src/main/java/com/robrua/nlp/bert/WordpieceTokenizer.java:79-82 | On a miss within the limit, the result ends with one unknown token. The pieces before it are kept and spell a proper prefix of the token. |
| WordpieceTokenizer.SubtokensVersusReference | src/main/java/com/robrua/nlp/bert/WordpieceTokenizer.java:63-82 | This port and the reference algorithm agree exactly when the token is too long, fully matched, or misses at position 0. |
| WordpieceTokenizer.KeepsPiecesBeforeMiss | src/main/java/com/robrua/nlp/bert/WordpieceTokenizer.java:79-82 | A concrete divergence: `unaffable` with vocabulary {`un`} gives `["un", "[UNK]"]`, where the reference gives `["[UNK]"]`. |
| WordpieceTokenizer.Tokenize | src/main/java/com/robrua/nlp/bert/WordpieceTokenizer.java:88-93 | `tokenize(String)` holds exactly the sub-tokens of the whitespace tokens of the sequence: a piece is in the result iff `splitToken` of some whitespace token yields it. |
| WordpieceTokenizer.TokenizeBatch | src/main/java/com/robrua/nlp/bert/WordpieceTokenizer.java:95-103 | `tokenize(String...)` yields one sub-token array per input sequence. |
| WordpieceTokenizer.TokenizeBatchRows | src/main/java/com/robrua/nlp/bert/WordpieceTokenizer.java:88-103 | The batch form returns one result per input, in input order, each equal to the single-sequence form. |
| WordpieceTokenizer.TokenizeInVocabulary | src/main/java/com/robrua/nlp/bert/WordpieceTokenizer.java:88-93 | Every sub-token of a sequence is a vocabulary key or the unknown token. |
| FullTokenizer.LastIndexKeys | src/main/java/com/robrua/nlp/bert/FullTokenizer.java:40-42 | The keys put into the map are exactly the keys read. |
| FullTokenizer.LastIndexIsLast | src/main/java/com/robrua/nlp/bert/FullTokenizer.java:40-42 | A key's id is the index of its last occurrence: it is in range, that line holds the key, and no later line does. |
| FullTokenizer.LastIndexSize | src/main/java/com/robrua/nlp/bert/FullTokenizer.java:40-42 | The map holds at most one entry per line. |
| FullTokenizer.VocabularyOfLines | src/main/java/com/robrua/nlp/bert/FullTokenizer.java:35-47 | The keys are exactly the trimmed lines. Each id is below the line count and is the last line that trims to the key. The size is at most the line count. |
| FullTokenizer.DuplicateLineShadows | src/main/java/com/robrua/nlp/bert/FullTokenizer.java:40-42 | The lines `a`, `b`, `a` give {`a`: 2, `b`: 1}: the counter advances on every line, so id 0 is lost. |
| FullTokenizer.VocabularyOf | src/main/java/com/robrua/nlp/bert/FullTokenizer.java:35-47 | The map the read loop builds from the lines: each trimmed line maps to its line index, a later line overwriting an earlier one. Every id is a line index, and there are at most as many keys as lines. |
| FullTokenizer.LoadVocabulary | src/main/java/com/robrua/nlp/bert/FullTokenizer.java:35-47 | The read loop yields `VocabularyOf(lines)`. Every id indexes a line that trims to its key, and the size is at most the line count. |
| FullTokenizer.New | src/main/java/com/robrua/nlp/bert/FullTokenizer.java:105-109 | The WordPiece stage shares the loaded vocabulary and uses the defaults `[UNK]` and 200. The basic stage is the one given. |
| FullTokenizer.Convert | src/main/java/com/robrua/nlp/bert/FullTokenizer.java:143-145 | Conversion succeeds iff every token is a key. The ids then match the tokens in length and position by position. Otherwise the error names the first token that is not a key. |
| FullTokenizer.Tokenize | src/main/java/com/robrua/nlp/bert/FullTokenizer.java:147-152 | `tokenize(String)` holds exactly the WordPiece tokens of the basic tokens: a token is in the result iff the WordPiece stage yields it for some basic token of the sequence. |
| FullTokenizer.TokenizeBatch | src/main/java/com/robrua/nlp/bert/FullTokenizer.java:154-161 | `tokenize(String...)` yields one token array per input sequence. |
| FullTokenizer.TokenizeBatchRows | src/main/java/com/robrua/nlp/bert/FullTokenizer.java:147-161 | `tokenize(String...)` returns one token sequence per input, in input order, each equal to `tokenize(String)` of that input. |
| FullTokenizer.TokenizeInVocabulary | src/main/java/com/robrua/nlp/bert/FullTokenizer.java:147-152 | For a tokenizer wired as the constructor wires it, every emitted token is a vocabulary key or `[UNK]`. |
| FullTokenizer.ConvertTokenizeSucceeds | src/main/java/com/robrua/nlp/bert/FullTokenizer.java:143-152 | If `[UNK]` is a key, converting the tokenizer's own output never fails. |
| Bert.New | src/main/java/com/robrua/nlp/bert/Bert.java:222-230 | Construction succeeds iff `[CLS]` and `[SEP]` are keys. The start and separator ids are then their vocabulary ids. Otherwise the lookup error names the first missing one. |
| Bert.Kept | src/main/java/com/robrua/nlp/bert/Bert.java:412 | The copy loop copies at most the content length and at most `maxSequenceLength - 2` ids, and stops only at one of those bounds. When `maxSequenceLength` is below 2 it copies nothing. |
| Bert.EncodeLayout | src/main/java/com/robrua/nlp/bert/Bert.java:408-425 | A row is `maxSequenceLength` long. Position 0 is the start id. Positions 1..k are the first k = min(n, max-2) ids in order. Position k+1 is the separator. Everything after is 0. The mask is 1 exactly on 0..k+1, so it has k+2 ones. |
| Bert.EncodeExamples | src/main/java/com/robrua/nlp/bert/Bert.java:409-425 | Concrete rows with length 5: ten content ids keep the first three; one content id gets two padding positions. |
| Bert.PutRow | src/main/java/com/robrua/nlp/bert/Bert.java:409-425 | Writing one row succeeds iff the row fits before capacity. The row's slice of the three buffers is then the encoded ids, mask and zero segments, and nothing outside the row changes. |
| Bert.GetInputs | src/main/java/com/robrua/nlp/bert/Bert.java:395-432 | The errors come in source order: a negative length at allocation, then a missing token at conversion, then overflow when the length is below 2. On success the buffers are `EncodeIds`, `EncodeMask` and all zeros, with count 1. |
| Bert.FailureBeforeNone | src/main/java/com/robrua/nlp/bert/Bert.java:448-449 | Among the first n rows, no conversion fails exactly when all n rows convert. |
| Bert.FailureBeforeIsFirst | src/main/java/com/robrua/nlp/bert/Bert.java:448-449 | A failure among the first n rows carries the error of a row whose conversion fails while every earlier row converts, so it is the first failing row's. |
| Bert.BatchOutcome | src/main/java/com/robrua/nlp/bert/Bert.java:434-475 | The outcome of `getInputs(String[])`, failures in the order the loop meets them: allocation, then each row's conversion, then that row's puts. It succeeds only with no rows or a length of at least 2, and then every row converts and the count is the number of rows. |
| Bert.BatchOutcomeCases | src/main/java/com/robrua/nlp/bert/Bert.java:434-475 | The batch encoder succeeds iff there are no rows, or the length is at least 2 and every row converts. It fails at allocation iff the length is negative and there is a row. It overflows iff the length is 0 or 1 and the rows up to the overflowing one convert. A lookup error is the first failing row's. Success yields the concatenated row encodings and the row count. |
| Bert.PutBatchRow | src/main/java/com/robrua/nlp/bert/Bert.java:449-467 | One pass of the loop either ends the batch with the outcome `BatchOutcome` names (the row's lookup error, or an overflow), or leaves the state before the next row, in which all earlier rows converted. For `maxSequenceLength` of at least 2, their encodings fill the buffers up to `maxSequenceLength * instance`. For 1, each earlier row has put its two markers, so the position is 2 · row. For 0, the first row always overflows. |
| Bert.PutRows | src/main/java/com/robrua/nlp/bert/Bert.java:437-474 | The allocation and the loop over the token rows return exactly `BatchOutcome`, so every case of `BatchOutcomeCases` holds of the method. |
| Bert.GetInputsBatch | src/main/java/com/robrua/nlp/bert/Bert.java:434-475 | `getInputs(String[])` returns exactly `BatchOutcome` of `tokenizer.tokenize(sequences)`. No sequences yields empty buffers with count 0. |
| Bert.BatchRowIsSingle | src/main/java/com/robrua/nlp/bert/Bert.java:437-468 | The batch buffers are count × maxSequenceLength long. Row i occupies [i·max, (i+1)·max) and equals the single-sequence encoding of sequence i, whatever the other rows hold. |

## Left out

- `BasicTokenizer` is not part of this model. It is an arbitrary function `string -> seq<string>`. Its `tokenize(String...)` is taken to apply the single form to each input in order.
- The `doLowerCase` flag only reaches `BasicTokenizer`, so it is absorbed into that function.
- `Tokenizer.tokenize(Iterable)` and `Tokenizer.tokenize(Iterator)` copy the elements into a list in iteration order and call the array overload. A Dafny sequence stands for all three collections, so these overloads coincide with `TokenizeBatch` and have no member of their own.
- Reading the vocabulary file is not modelled: the charset, `BufferedReader`, `IOException`, and the `File`/`Path`/resource-name constructors and `toPath`. `LoadVocabulary` takes the file's lines as a sequence.
- The rest of `Bert` is not modelled: `load`, model-details parsing, `SavedModelBundle`, the `Inputs` tensors and `close`, and all `embed*` methods. These are I/O and TensorFlow calls.
- The Python package (`easybert/`, `setup.py`) is not modelled.
- Characters: Java strings are UTF-16 units, and a Dafny `char` is a Unicode scalar value. A supplementary character therefore counts once here against the 200-character limit, but twice in Java. The model also never splits a surrogate pair.
- Java `int` overflow is not modelled. This covers the vocabulary counter `index++` past 2^31 - 1 lines, and the products `sequences.length * maxSequenceLength` and `maxSequenceLength * instance`. The model uses unbounded integers.
- `HashMap` hashing and iteration order, and `Stream` laziness, are not modelled. The vocabulary is a `map`, and streams are sequences. The order of conversion failures is kept.
- The three `IntBuffer`s are arrays sharing one position. In the source they always move in lockstep, so one position stands for all three. `rewind` only resets that position and is not modelled.
