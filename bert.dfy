/** The part of Bert that turns sequences into model inputs: the start and separator ids looked
    up by the constructor, and the getInputs encoders that fill the input-id, input-mask and
    segment-id buffers. */
module Bert {
  import opened Results
  import opened Seqs
  import opened FullTokenizer

  const SEPARATOR_TOKEN: string := "[SEP]"
  const START_TOKEN: string := "[CLS]"

  datatype Model = Model(tokenizer: Full, maxSequenceLength: int, startTokenId: int, separatorTokenId: int)

  /** The three buffers handed to the model, flattened row after row, and the row count. */
  datatype Inputs = Inputs(inputIds: seq<int>, inputMask: seq<int>, segmentIds: seq<int>, count: int)

  /** The constructor's lookup of the "[CLS]" and "[SEP]" ids; the lookup fails as convert does
      when either is missing from the vocabulary. */
  function New(tokenizer: Full, maxSequenceLength: int): (r: Result<Model>)
    ensures r.Success? <==> START_TOKEN in tokenizer.vocabulary && SEPARATOR_TOKEN in tokenizer.vocabulary
    ensures r.Success? ==>
      && r.value.tokenizer == tokenizer && r.value.maxSequenceLength == maxSequenceLength
      && r.value.startTokenId == tokenizer.vocabulary[START_TOKEN]
      && r.value.separatorTokenId == tokenizer.vocabulary[SEPARATOR_TOKEN]
    ensures r.Failure? ==>
      r.error == LookupError(if START_TOKEN !in tokenizer.vocabulary then START_TOKEN else SEPARATOR_TOKEN)
  {
    match Convert(tokenizer.vocabulary, [START_TOKEN, SEPARATOR_TOKEN])
    case Success(ids) => Success(Model(tokenizer, maxSequenceLength, ids[0], ids[1]))
    case Failure(e) => Failure(e)
  }

  function Zeros(n: nat): (r: seq<int>)
    ensures |r| == n && forall i :: 0 <= i < n ==> r[i] == 0
  {
    seq(n, _ => 0)
  }

  function Ones(n: nat): (r: seq<int>)
    ensures |r| == n && forall i :: 0 <= i < n ==> r[i] == 1
  {
    seq(n, _ => 1)
  }

  /** How many content ids the loop `i < ids.length && i < maxSequenceLength - 2` copies. */
  function Kept(count: nat, maxSequenceLength: int): (k: nat)
    ensures k <= count && (maxSequenceLength >= 2 ==> k <= maxSequenceLength - 2)
    ensures k == count || k == maxSequenceLength - 2 || (k == 0 && maxSequenceLength < 2)
    ensures maxSequenceLength < 2 ==> k == 0
  {
    if count <= maxSequenceLength - 2 then count
    else if maxSequenceLength - 2 < 0 then 0
    else maxSequenceLength - 2
  }

  /** The ids of one row of the given width: start marker, content, separator, zero padding. */
  function Row(startId: int, separatorId: int, content: seq<int>, width: nat): (r: seq<int>)
    requires |content| + 2 <= width
    ensures |r| == width
    ensures forall j :: 0 <= j < width ==>
      r[j] == if j == 0 then startId
              else if j <= |content| then content[j - 1]
              else if j == |content| + 1 then separatorId
              else 0
  {
    [startId] + content + [separatorId] + Zeros(width - |content| - 2)
  }

  /** The mask of such a row: one for the markers and the content, zero for the padding. */
  function Mask(contentLength: nat, width: nat): (r: seq<int>)
    requires contentLength + 2 <= width
    ensures |r| == width
    ensures forall j :: 0 <= j < width ==> r[j] == if j < contentLength + 2 then 1 else 0
  {
    Ones(contentLength + 2) + Zeros(width - contentLength - 2)
  }

  /** The input ids of one sequence with the given content ids, truncated to fit. */
  function EncodeIds(m: Model, ids: seq<int>): seq<int>
    requires m.maxSequenceLength >= 2
  {
    Row(m.startTokenId, m.separatorTokenId, ids[..Kept(|ids|, m.maxSequenceLength)], m.maxSequenceLength)
  }

  /** The input mask of one sequence with the given number of content ids. */
  function EncodeMask(m: Model, contentLength: nat): seq<int>
    requires m.maxSequenceLength >= 2
  {
    Mask(Kept(contentLength, m.maxSequenceLength), m.maxSequenceLength)
  }

  function CountOnes(s: seq<int>): nat {
    if s == [] then 0 else (if s[0] == 1 then 1 else 0) + CountOnes(s[1..])
  }

  lemma {:induction false} CountOnesAppend(a: seq<int>, b: seq<int>)
    ensures CountOnes(a + b) == CountOnes(a) + CountOnes(b)
  {
    if a == [] {
      assert a + b == b;
    } else {
      assert (a + b)[1..] == a[1..] + b;
      CountOnesAppend(a[1..], b);
    }
  }

  lemma {:induction false} CountOnesConstant(n: nat, v: int)
    ensures CountOnes(seq(n, _ => v)) == if v == 1 then n else 0
  {
    if n > 0 {
      assert seq(n, _ => v)[1..] == seq(n - 1, _ => v);
      CountOnesConstant(n - 1, v);
    }
  }

  /** The layout of one encoded row: exactly maxSequenceLength long; position 0 holds the start
      id, positions 1..k the first k = min(n, maxSequenceLength - 2) content ids in order,
      position k + 1 the separator id, every later position 0; the mask is one exactly on
      positions 0..k+1, so it has k + 2 ones. */
  lemma EncodeLayout(m: Model, ids: seq<int>)
    requires m.maxSequenceLength >= 2
    ensures var k := Kept(|ids|, m.maxSequenceLength);
      var row, mask := EncodeIds(m, ids), EncodeMask(m, |ids|);
      && k == (if |ids| < m.maxSequenceLength - 2 then |ids| else m.maxSequenceLength - 2)
      && |row| == m.maxSequenceLength && |mask| == m.maxSequenceLength
      && row[0] == m.startTokenId
      && (forall i :: 1 <= i <= k ==> row[i] == ids[i - 1])
      && row[k + 1] == m.separatorTokenId
      && (forall i :: k + 2 <= i < m.maxSequenceLength ==> row[i] == 0)
      && (forall i :: 0 <= i < m.maxSequenceLength ==> mask[i] == if i < k + 2 then 1 else 0)
      && CountOnes(mask) == k + 2
  {
    var k := Kept(|ids|, m.maxSequenceLength);
    var w := m.maxSequenceLength;
    CountOnesAppend(Ones(k + 2), Zeros(w - k - 2));
    CountOnesConstant(k + 2, 1);
    CountOnesConstant(w - k - 2, 0);
  }

  /** Writes one id, mask bit and segment id (always 0) at the shared buffer position. */
  method Put(inputIds: array<int>, inputMask: array<int>, segmentIds: array<int>, position: nat, id: int, mask: int)
    requires inputIds != inputMask && inputIds != segmentIds && inputMask != segmentIds
    requires position < inputIds.Length == inputMask.Length == segmentIds.Length
    modifies inputIds, inputMask, segmentIds
    ensures inputIds[..] == old(inputIds[..])[position := id]
    ensures inputMask[..] == old(inputMask[..])[position := mask]
    ensures segmentIds[..] == old(segmentIds[..])[position := 0]
  {
    inputIds[position] := id;
    inputMask[position] := mask;
    segmentIds[position] := 0;
  }

  /** cur agrees with before outside [position, next) and with expected inside it. */
  ghost predicate Written(cur: seq<int>, before: seq<int>, position: nat, next: nat, expected: seq<int>) {
    && |cur| == |before| && position <= next <= |cur| && next - position <= |expected|
    && forall j :: 0 <= j < |cur| ==>
         cur[j] == if position <= j < next then expected[j - position] else before[j]
  }

  lemma WrittenStep(cur: seq<int>, before: seq<int>, position: nat, next: nat, expected: seq<int>)
    requires Written(cur, before, position, next, expected)
    requires next < |cur| && next - position < |expected|
    ensures Written(cur[next := expected[next - position]], before, position, next + 1, expected)
  {
  }

  lemma WrittenDone(cur: seq<int>, before: seq<int>, position: nat, next: nat, expected: seq<int>)
    requires Written(cur, before, position, next, expected) && next - position == |expected|
    ensures cur[..position] == before[..position]
    ensures cur[position..next] == expected
    ensures cur[next..] == before[next..]
  {
  }

  /** All three buffers agree with their snapshot outside [position, next) and with the row
      being written inside it. */
  ghost predicate RowWritten(inputIds: seq<int>, inputMask: seq<int>, segmentIds: seq<int>,
                             beforeIds: seq<int>, beforeMask: seq<int>, beforeSegments: seq<int>,
                             position: nat, next: nat, rowIds: seq<int>, rowMask: seq<int>)
  {
    && |rowMask| == |rowIds|
    && Written(inputIds, beforeIds, position, next, rowIds)
    && Written(inputMask, beforeMask, position, next, rowMask)
    && Written(segmentIds, beforeSegments, position, next, Zeros(|rowIds|))
  }

  /** Put, seen as writing the next position of the row. */
  method PutNext(inputIds: array<int>, inputMask: array<int>, segmentIds: array<int>,
                 ghost beforeIds: seq<int>, ghost beforeMask: seq<int>, ghost beforeSegments: seq<int>,
                 position: nat, next: nat, ghost rowIds: seq<int>, ghost rowMask: seq<int>, id: int, mask: int)
    requires inputIds != inputMask && inputIds != segmentIds && inputMask != segmentIds
    requires inputIds.Length == inputMask.Length == segmentIds.Length
    requires RowWritten(inputIds[..], inputMask[..], segmentIds[..], beforeIds, beforeMask, beforeSegments, position, next, rowIds, rowMask)
    requires next < inputIds.Length && next - position < |rowIds|
    requires id == rowIds[next - position] && mask == rowMask[next - position]
    modifies inputIds, inputMask, segmentIds
    ensures RowWritten(inputIds[..], inputMask[..], segmentIds[..], beforeIds, beforeMask, beforeSegments, position, next + 1, rowIds, rowMask)
  {
    WrittenStep(inputIds[..], beforeIds, position, next, rowIds);
    WrittenStep(inputMask[..], beforeMask, position, next, rowMask);
    WrittenStep(segmentIds[..], beforeSegments, position, next, Zeros(|rowIds|));
    Put(inputIds, inputMask, segmentIds, next, id, mask);
  }

  /** Positions a row occupies: up to limit, but never fewer than the markers and the content. */
  function RowWidth(position: nat, kept: nat, limit: int): nat {
    if limit - position > kept + 2 then limit - position else kept + 2
  }

  /** One row of getInputs: the start marker, the kept content ids, the separator, then zero
      padding while the position is below limit. A put at the buffers' capacity overflows,
      which ends the row with ok false. */
  method PutRow(inputIds: array<int>, inputMask: array<int>, segmentIds: array<int>, position: nat,
                startId: int, separatorId: int, ids: seq<int>, maxSequenceLength: int, limit: int)
    returns (ok: bool, next: nat)
    requires inputIds != inputMask && inputIds != segmentIds && inputMask != segmentIds
    requires position <= inputIds.Length == inputMask.Length == segmentIds.Length
    modifies inputIds, inputMask, segmentIds
    ensures var k := Kept(|ids|, maxSequenceLength);
      ok <==> position + RowWidth(position, k, limit) <= inputIds.Length
    ensures var k := Kept(|ids|, maxSequenceLength);
      var width := RowWidth(position, k, limit);
      ok ==>
        && next == position + width
        && inputIds[..position] == old(inputIds[..position]) && inputIds[next..] == old(inputIds[next..])
        && inputMask[..position] == old(inputMask[..position]) && inputMask[next..] == old(inputMask[next..])
        && segmentIds[..position] == old(segmentIds[..position]) && segmentIds[next..] == old(segmentIds[next..])
        && inputIds[position..next] == Row(startId, separatorId, ids[..k], width)
        && inputMask[position..next] == Mask(k, width)
        && segmentIds[position..next] == Zeros(width)
  {
    var k := Kept(|ids|, maxSequenceLength);
    ghost var width := RowWidth(position, k, limit);
    ghost var rowIds, rowMask := Row(startId, separatorId, ids[..k], width), Mask(k, width);
    ghost var beforeIds, beforeMask, beforeSegments := inputIds[..], inputMask[..], segmentIds[..];
    assert |rowIds| == width && |rowMask| == width;
    next := position;
    assert RowWritten(inputIds[..], inputMask[..], segmentIds[..], beforeIds, beforeMask, beforeSegments, position, next, rowIds, rowMask);
    if next >= inputIds.Length {
      return false, next;
    }
    PutNext(inputIds, inputMask, segmentIds, beforeIds, beforeMask, beforeSegments, position, next, rowIds, rowMask, startId, 1);
    next := next + 1;
    var i := 0;
    while i < |ids| && i < maxSequenceLength - 2
      invariant 0 <= i <= k && next == position + 1 + i
      invariant RowWritten(inputIds[..], inputMask[..], segmentIds[..], beforeIds, beforeMask, beforeSegments, position, next, rowIds, rowMask)
    {
      if next >= inputIds.Length {
        return false, next;
      }
      assert rowIds[next - position] == ids[i];
      PutNext(inputIds, inputMask, segmentIds, beforeIds, beforeMask, beforeSegments, position, next, rowIds, rowMask, ids[i], 1);
      next := next + 1;
      i := i + 1;
    }
    if next >= inputIds.Length {
      return false, next;
    }
    PutNext(inputIds, inputMask, segmentIds, beforeIds, beforeMask, beforeSegments, position, next, rowIds, rowMask, separatorId, 1);
    next := next + 1;
    while next < limit
      invariant position + k + 2 <= next <= position + width
      invariant RowWritten(inputIds[..], inputMask[..], segmentIds[..], beforeIds, beforeMask, beforeSegments, position, next, rowIds, rowMask)
    {
      if next >= inputIds.Length {
        return false, next;
      }
      PutNext(inputIds, inputMask, segmentIds, beforeIds, beforeMask, beforeSegments, position, next, rowIds, rowMask, 0, 0);
      next := next + 1;
    }
    WrittenDone(inputIds[..], beforeIds, position, next, rowIds);
    WrittenDone(inputMask[..], beforeMask, position, next, rowMask);
    WrittenDone(segmentIds[..], beforeSegments, position, next, Zeros(width));
    ok := true;
  }

  /** getInputs(String): tokenize and convert the sequence, then write one row of
      maxSequenceLength positions. A negative length fails at allocation, a missing token at
      conversion, and a length below 2 when the separator no longer fits. */
  method GetInputs(m: Model, sequence: string) returns (r: Result<Inputs>)
    ensures var ids := Convert(m.tokenizer.vocabulary, Tokenize(m.tokenizer, sequence));
      r == if m.maxSequenceLength < 0 then Failure(IllegalCapacity)
           else if ids.Failure? then Failure(ids.error)
           else if m.maxSequenceLength < 2 then Failure(BufferOverflow)
           else Success(Inputs(EncodeIds(m, ids.value), EncodeMask(m, |ids.value|), Zeros(m.maxSequenceLength), 1))
  {
    var tokens := Tokenize(m.tokenizer, sequence);
    if m.maxSequenceLength < 0 {
      return Failure(IllegalCapacity);
    }
    var inputIds := new int[m.maxSequenceLength](_ => 0);
    var inputMask := new int[m.maxSequenceLength](_ => 0);
    var segmentIds := new int[m.maxSequenceLength](_ => 0);
    var converted := Convert(m.tokenizer.vocabulary, tokens);
    if converted.Failure? {
      return Failure(converted.error);
    }
    var ids := converted.value;
    var ok, next := PutRow(inputIds, inputMask, segmentIds, 0, m.startTokenId, m.separatorTokenId,
                           ids, m.maxSequenceLength, m.maxSequenceLength);
    if !ok {
      return Failure(BufferOverflow);
    }
    assert inputIds[..] == inputIds[0..next];
    assert inputMask[..] == inputMask[0..next];
    assert segmentIds[..] == segmentIds[0..next];
    r := Success(Inputs(inputIds[..], inputMask[..], segmentIds[..], 1));
  }

  /** Whether every token row converts. */
  predicate AllConvert(m: Model, rows: seq<seq<string>>) {
    forall i :: 0 <= i < |rows| ==> Convert(m.tokenizer.vocabulary, rows[i]).Success?
  }

  /** The ids of each token row. */
  function ConvertRows(m: Model, rows: seq<seq<string>>): (ids: seq<seq<int>>)
    requires AllConvert(m, rows)
    ensures |ids| == |rows|
  {
    seq(|rows|, i requires 0 <= i < |rows| => Convert(m.tokenizer.vocabulary, rows[i]).value)
  }

  /** The encoded ids, masks and segment ids of each row, concatenated. */
  function BatchIds(m: Model, ids: seq<seq<int>>): seq<int>
    requires m.maxSequenceLength >= 2
  {
    Flatten(seq(|ids|, i requires 0 <= i < |ids| => EncodeIds(m, ids[i])))
  }

  function BatchMask(m: Model, ids: seq<seq<int>>): seq<int>
    requires m.maxSequenceLength >= 2
  {
    Flatten(seq(|ids|, i requires 0 <= i < |ids| => EncodeMask(m, |ids[i]|)))
  }

  function BatchSegments(m: Model, count: nat): seq<int>
    requires m.maxSequenceLength >= 2
  {
    Flatten(seq(count, i requires 0 <= i < count => Zeros(m.maxSequenceLength)))
  }

  lemma BatchAppend(m: Model, ids: seq<seq<int>>, row: seq<int>)
    requires m.maxSequenceLength >= 2
    ensures BatchIds(m, ids + [row]) == BatchIds(m, ids) + EncodeIds(m, row)
    ensures BatchMask(m, ids + [row]) == BatchMask(m, ids) + EncodeMask(m, |row|)
  {
    var all := ids + [row];
    var a := seq(|all|, i requires 0 <= i < |all| => EncodeIds(m, all[i]));
    assert a == seq(|ids|, i requires 0 <= i < |ids| => EncodeIds(m, ids[i])) + [EncodeIds(m, row)];
    FlattenAppend(seq(|ids|, i requires 0 <= i < |ids| => EncodeIds(m, ids[i])), [EncodeIds(m, row)]);
    var b := seq(|all|, i requires 0 <= i < |all| => EncodeMask(m, |all[i]|));
    assert b == seq(|ids|, i requires 0 <= i < |ids| => EncodeMask(m, |ids[i]|)) + [EncodeMask(m, |row|)];
    FlattenAppend(seq(|ids|, i requires 0 <= i < |ids| => EncodeMask(m, |ids[i]|)), [EncodeMask(m, |row|)]);
  }

  lemma BatchSegmentsAppend(m: Model, n: nat)
    requires m.maxSequenceLength >= 2
    ensures BatchSegments(m, n + 1) == BatchSegments(m, n) + Zeros(m.maxSequenceLength)
  {
    var c := seq(n + 1, i requires 0 <= i < n + 1 => Zeros(m.maxSequenceLength));
    assert c == seq(n, i requires 0 <= i < n => Zeros(m.maxSequenceLength)) + [Zeros(m.maxSequenceLength)];
    FlattenAppend(seq(n, i requires 0 <= i < n => Zeros(m.maxSequenceLength)), [Zeros(m.maxSequenceLength)]);
  }

  lemma MulNext(width: nat, row: nat, count: nat)
    requires row < count
    ensures width * (row + 1) == width * row + width
    ensures width * (row + 1) <= width * count
  {
  }

  /** The error of the first of the first n token rows that does not convert, if any. */
  function FailureBefore(m: Model, tokens: seq<seq<string>>, n: nat): Option<Error>
    requires n <= |tokens|
  {
    if n == 0 then None
    else match FailureBefore(m, tokens, n - 1)
      case Some(e) => Some(e)
      case None =>
        var converted := Convert(m.tokenizer.vocabulary, tokens[n - 1]);
        if converted.Failure? then Some(converted.error) else None
  }

  /** No failure among the first n rows exactly when they all convert. */
  lemma {:induction false} FailureBeforeNone(m: Model, tokens: seq<seq<string>>, n: nat)
    requires n <= |tokens|
    ensures FailureBefore(m, tokens, n).None? <==> AllConvert(m, tokens[..n])
  {
    if n > 0 {
      FailureBeforeNone(m, tokens, n - 1);
      assert tokens[..n] == tokens[..n - 1] + [tokens[n - 1]];
      assert tokens[..n][..n - 1] == tokens[..n - 1];
    }
  }

  /** A failure among the first n rows is the error of the first row that does not convert. */
  lemma {:induction false} FailureBeforeIsFirst(m: Model, tokens: seq<seq<string>>, n: nat)
    requires n <= |tokens| && FailureBefore(m, tokens, n).Some?
    ensures exists i :: (0 <= i < n
      && Convert(m.tokenizer.vocabulary, tokens[i]) == Failure(FailureBefore(m, tokens, n).value)
      && AllConvert(m, tokens[..i]))
  {
    if FailureBefore(m, tokens, n - 1).Some? {
      FailureBeforeIsFirst(m, tokens, n - 1);
    } else {
      FailureBeforeNone(m, tokens, n - 1);
      assert Convert(m.tokenizer.vocabulary, tokens[n - 1]) == Failure(FailureBefore(m, tokens, n).value);
    }
  }

  /** Once a row has failed, later rows do not change the outcome. */
  lemma {:induction false} FailureBeforeExtend(m: Model, tokens: seq<seq<string>>, n: nat, n': nat)
    requires n <= n' <= |tokens| && FailureBefore(m, tokens, n).Some?
    ensures FailureBefore(m, tokens, n') == FailureBefore(m, tokens, n)
    decreases n' - n
  {
    if n < n' {
      FailureBeforeExtend(m, tokens, n + 1, n');
    }
  }

  /** With maxSequenceLength 1, row r puts its markers at positions 2r and 2r + 1 of a buffer
      of |tokens| positions, so row |tokens| / 2 is the first that overflows; with
      maxSequenceLength 0 it is row 0. */
  function OverflowRow(m: Model, count: nat): nat {
    if m.maxSequenceLength == 1 then count / 2 else 0
  }

  /** What getInputs(String[]) yields for the token rows, in the order the loop meets its
      failures: allocation, then each row's conversion, then that row's puts. */
  function BatchOutcome(m: Model, tokens: seq<seq<string>>): (r: Result<Inputs>)
    ensures r.Success? ==> r.value.count == |tokens| && (|tokens| == 0 || m.maxSequenceLength >= 2)
    ensures r.Success? && |tokens| > 0 ==> AllConvert(m, tokens)
  {
    if |tokens| == 0 then Success(Inputs([], [], [], 0))
    else if m.maxSequenceLength < 0 then Failure(IllegalCapacity)
    else if m.maxSequenceLength >= 2 then
      match FailureBefore(m, tokens, |tokens|)
      case Some(e) => Failure(e)
      case None =>
        FailureBeforeNone(m, tokens, |tokens|);
        assert tokens[..|tokens|] == tokens;
        var ids := ConvertRows(m, tokens);
        Success(Inputs(BatchIds(m, ids), BatchMask(m, ids), BatchSegments(m, |tokens|), |tokens|))
    else
      match FailureBefore(m, tokens, OverflowRow(m, |tokens|) + 1)
      case Some(e) => Failure(e)
      case None => Failure(BufferOverflow)
  }

  /** The outcomes of the batch encoder. It succeeds iff there are no rows, or the length is at
      least 2 and every row converts; a negative length fails at allocation; a lookup error is
      that of the first row that does not convert; an overflow happens only for lengths 0 and
      1, once the rows up to the overflowing one have converted. */
  lemma BatchOutcomeCases(m: Model, tokens: seq<seq<string>>)
    ensures var r := BatchOutcome(m, tokens);
      && (r.Success? <==> |tokens| == 0 || (m.maxSequenceLength >= 2 && AllConvert(m, tokens)))
      && (r == Failure(IllegalCapacity) <==> m.maxSequenceLength < 0 && |tokens| > 0)
      && (r == Failure(BufferOverflow) <==>
            |tokens| > 0 && 0 <= m.maxSequenceLength < 2 && AllConvert(m, tokens[..OverflowRow(m, |tokens|) + 1]))
    ensures var r := BatchOutcome(m, tokens);
      r.Failure? && r.error.LookupError? ==>
        exists i :: (0 <= i < |tokens|
          && Convert(m.tokenizer.vocabulary, tokens[i]) == Failure(r.error) && AllConvert(m, tokens[..i]))
    ensures var r := BatchOutcome(m, tokens);
      r.Success? && |tokens| > 0 ==>
        r.value == Inputs(BatchIds(m, ConvertRows(m, tokens)), BatchMask(m, ConvertRows(m, tokens)),
                          BatchSegments(m, |tokens|), |tokens|)
  {
    if |tokens| > 0 && m.maxSequenceLength >= 0 {
      var n := if m.maxSequenceLength >= 2 then |tokens| else OverflowRow(m, |tokens|) + 1;
      assert tokens[..|tokens|] == tokens;
      FailureBeforeNone(m, tokens, n);
      if FailureBefore(m, tokens, n).Some? {
        FailureBeforeIsFirst(m, tokens, n);
      }
    }
  }

  /** The state of the loop of getInputs(String[]) before token row `row`: the rows before it
      converted, and the buffers hold their encodings up to `position`. With maxSequenceLength 1
      each row has put its two markers; with 0 no row has been written. */
  ghost predicate Progress(m: Model, tokens: seq<seq<string>>, row: nat, position: nat,
                           inputIds: seq<int>, inputMask: seq<int>, segmentIds: seq<int>)
    requires row <= |tokens|
  {
    && 0 <= m.maxSequenceLength
    && |inputIds| == |inputMask| == |segmentIds| == |tokens| * m.maxSequenceLength
    && position <= |inputIds|
    && FailureBefore(m, tokens, row).None?
    && (m.maxSequenceLength < 2 && row > 0 ==> m.maxSequenceLength == 1 && 2 * row <= |tokens|)
    && (m.maxSequenceLength == 1 ==> position == 2 * row)
    && (m.maxSequenceLength >= 2 ==> RowsWritten(m, tokens, row, position, inputIds, inputMask, segmentIds))
  }

  /** The buffers hold the encodings of the first `row` token rows, which all converted. */
  ghost predicate RowsWritten(m: Model, tokens: seq<seq<string>>, row: nat, position: nat,
                              inputIds: seq<int>, inputMask: seq<int>, segmentIds: seq<int>)
    requires m.maxSequenceLength >= 2 && row <= |tokens|
  {
    && position == m.maxSequenceLength * row
    && position <= |inputIds| && position <= |inputMask| && position <= |segmentIds|
    && AllConvert(m, tokens[..row])
    && inputIds[..position] == BatchIds(m, ConvertRows(m, tokens[..row]))
    && inputMask[..position] == BatchMask(m, ConvertRows(m, tokens[..row]))
    && segmentIds[..position] == BatchSegments(m, row)
  }

  /** One pass of the loop of getInputs(String[]): convert token row `row`, then write its
      markers, kept ids and padding up to maxSequenceLength * instance. */
  method PutBatchRow(m: Model, tokens: seq<seq<string>>, row: nat, instance: int,
                     inputIds: array<int>, inputMask: array<int>, segmentIds: array<int>, position: nat)
    returns (failure: Option<Error>, next: nat)
    requires inputIds != inputMask && inputIds != segmentIds && inputMask != segmentIds
    requires row < |tokens| && instance == row + 1
    requires Progress(m, tokens, row, position, inputIds[..], inputMask[..], segmentIds[..])
    modifies inputIds, inputMask, segmentIds
    ensures failure.Some? ==> Failure(failure.value) == BatchOutcome(m, tokens)
    ensures failure.None? ==> Progress(m, tokens, row + 1, next, inputIds[..], inputMask[..], segmentIds[..])
  {
    var width := m.maxSequenceLength;
    var converted := Convert(m.tokenizer.vocabulary, tokens[row]);
    if converted.Failure? {
      FailureExit(m, tokens, row, converted.error);
      return Some(converted.error), position;
    }
    ghost var beforeIds, beforeMask, beforeSegments := inputIds[..], inputMask[..], segmentIds[..];
    var ok;
    ok, next := PutRow(inputIds, inputMask, segmentIds, position, m.startTokenId, m.separatorTokenId,
                       converted.value, width, width * instance);
    RowOutcome(m, tokens, row, position, next, ok, converted.value,
               beforeIds, beforeMask, beforeSegments, inputIds[..], inputMask[..], segmentIds[..]);
    failure := if ok then None else Some(BufferOverflow);
  }

  /** What one pass of the loop leaves behind, given what PutRow promises about the buffers:
      either the overflow outcome, or the state before the next row. */
  lemma RowOutcome(m: Model, tokens: seq<seq<string>>, row: nat, position: nat, next: nat, ok: bool,
                   ids: seq<int>, beforeIds: seq<int>, beforeMask: seq<int>, beforeSegments: seq<int>,
                   inputIds: seq<int>, inputMask: seq<int>, segmentIds: seq<int>)
    requires row < |tokens| && Progress(m, tokens, row, position, beforeIds, beforeMask, beforeSegments)
    requires Convert(m.tokenizer.vocabulary, tokens[row]) == Success(ids)
    requires |inputIds| == |beforeIds| && |inputMask| == |beforeMask| && |segmentIds| == |beforeSegments|
    requires var k := Kept(|ids|, m.maxSequenceLength);
      ok <==> position + RowWidth(position, k, m.maxSequenceLength * (row + 1)) <= |inputIds|
    requires var k := Kept(|ids|, m.maxSequenceLength);
      var width := RowWidth(position, k, m.maxSequenceLength * (row + 1));
      ok ==>
        && next == position + width
        && inputIds[..position] == beforeIds[..position]
        && inputMask[..position] == beforeMask[..position]
        && segmentIds[..position] == beforeSegments[..position]
        && inputIds[position..next] == Row(m.startTokenId, m.separatorTokenId, ids[..k], width)
        && inputMask[position..next] == Mask(k, width)
        && segmentIds[position..next] == Zeros(width)
    ensures !ok ==> Failure(BufferOverflow) == BatchOutcome(m, tokens)
    ensures ok ==> Progress(m, tokens, row + 1, next, inputIds, inputMask, segmentIds)
  {
    var width := m.maxSequenceLength;
    MulNext(width, row, |tokens|);
    var k := Kept(|ids|, width);
    assert width < 2 ==> RowWidth(position, k, width * (row + 1)) == 2;
    assert width >= 2 ==> RowWidth(position, k, width * (row + 1)) == width;
    if !ok {
      FailureExit(m, tokens, row, BufferOverflow);
    } else if width >= 2 {
      RowsStep(m, tokens, row, ids);
      BatchStep(m, ConvertRows(m, tokens[..row]), ids, row, inputIds, inputMask, segmentIds, position, next);
    }
  }

  /** The loop of getInputs(String[]) over the token rows, into buffers of
      |tokens| * maxSequenceLength positions. */
  method PutRows(m: Model, tokens: seq<seq<string>>) returns (r: Result<Inputs>)
    ensures r == BatchOutcome(m, tokens)
  {
    var count := |tokens|;
    var width := m.maxSequenceLength;
    var capacity := count * width;
    if capacity < 0 {
      return Failure(IllegalCapacity);
    }
    if count == 0 {
      return Success(Inputs([], [], [], 0));
    }
    assert width >= 0;
    var inputIds := new int[capacity](_ => 0);
    var inputMask := new int[capacity](_ => 0);
    var segmentIds := new int[capacity](_ => 0);
    var position: nat := 0;
    var instance := 1;
    for row := 0 to count
      invariant instance == row + 1
      invariant Progress(m, tokens, row, position, inputIds[..], inputMask[..], segmentIds[..])
    {
      var failure, next := PutBatchRow(m, tokens, row, instance, inputIds, inputMask, segmentIds, position);
      if failure.Some? {
        return Failure(failure.value);
      }
      position := next;
      instance := instance + 1;
    }
    Finished(m, tokens, position, inputIds[..], inputMask[..], segmentIds[..]);
    r := Success(Inputs(inputIds[..], inputMask[..], segmentIds[..], count));
  }

  /** After the last row the buffers are full and hold the encoding the specification names. */
  lemma Finished(m: Model, tokens: seq<seq<string>>, position: nat,
                 inputIds: seq<int>, inputMask: seq<int>, segmentIds: seq<int>)
    requires |tokens| > 0 && Progress(m, tokens, |tokens|, position, inputIds, inputMask, segmentIds)
    ensures BatchOutcome(m, tokens) == Success(Inputs(inputIds, inputMask, segmentIds, |tokens|))
  {
    var count := |tokens|;
    if m.maxSequenceLength < 2 {
      assert false;
    }
    FailureBeforeNone(m, tokens, count);
    assert tokens[..count] == tokens;
    assert inputIds == inputIds[..position];
    assert inputMask == inputMask[..position];
    assert segmentIds == segmentIds[..position];
  }

  /** A row that fails in the loop gives the outcome the specification names. */
  lemma FailureExit(m: Model, tokens: seq<seq<string>>, row: nat, e: Error)
    requires 0 <= m.maxSequenceLength && row < |tokens| && FailureBefore(m, tokens, row).None?
    requires m.maxSequenceLength < 2 && row > 0 ==> m.maxSequenceLength == 1 && 2 * row <= |tokens|
    requires var converted := Convert(m.tokenizer.vocabulary, tokens[row]);
      || (converted.Failure? && e == converted.error)
      || (converted.Success? && e == BufferOverflow && m.maxSequenceLength < 2
          && !(m.maxSequenceLength == 1 && 2 * row + 2 <= |tokens|))
    ensures Failure(e) == BatchOutcome(m, tokens)
  {
    var last := if m.maxSequenceLength >= 2 then |tokens| else OverflowRow(m, |tokens|) + 1;
    if Convert(m.tokenizer.vocabulary, tokens[row]).Failure? {
      assert FailureBefore(m, tokens, row + 1) == Some(e);
      FailureBeforeExtend(m, tokens, row + 1, last);
    } else {
      assert row + 1 == last;
    }
  }

  /** One more row of the batch: the buffers' prefixes grow by the row's encoding. */
  lemma BatchStep(m: Model, done: seq<seq<int>>, ids: seq<int>, row: nat,
                  inputIds: seq<int>, inputMask: seq<int>, segmentIds: seq<int>, position: nat, next: nat)
    requires m.maxSequenceLength >= 2
    requires position <= next <= |inputIds| && next <= |inputMask| && next <= |segmentIds|
    requires inputIds[..position] == BatchIds(m, done) && inputIds[position..next] == EncodeIds(m, ids)
    requires inputMask[..position] == BatchMask(m, done) && inputMask[position..next] == EncodeMask(m, |ids|)
    requires segmentIds[..position] == BatchSegments(m, row) && segmentIds[position..next] == Zeros(m.maxSequenceLength)
    ensures inputIds[..next] == BatchIds(m, done + [ids])
    ensures inputMask[..next] == BatchMask(m, done + [ids])
    ensures segmentIds[..next] == BatchSegments(m, row + 1)
  {
    BatchAppend(m, done, ids);
    BatchSegmentsAppend(m, row);
    ExtendPrefix(inputIds, position, next, BatchIds(m, done), EncodeIds(m, ids));
    ExtendPrefix(inputMask, position, next, BatchMask(m, done), EncodeMask(m, |ids|));
    ExtendPrefix(segmentIds, position, next, BatchSegments(m, row), Zeros(m.maxSequenceLength));
  }

  lemma ExtendPrefix(cur: seq<int>, position: nat, next: nat, prefix: seq<int>, row: seq<int>)
    requires position <= next <= |cur| && cur[..position] == prefix && cur[position..next] == row
    ensures cur[..next] == prefix + row
  {
    assert cur[..next] == cur[..position] + cur[position..next];
  }

  lemma RowsStep(m: Model, tokens: seq<seq<string>>, row: nat, ids: seq<int>)
    requires row < |tokens| && AllConvert(m, tokens[..row])
    requires Convert(m.tokenizer.vocabulary, tokens[row]) == Success(ids)
    ensures AllConvert(m, tokens[..row + 1])
    ensures ConvertRows(m, tokens[..row + 1]) == ConvertRows(m, tokens[..row]) + [ids]
  {
    assert tokens[..row + 1] == tokens[..row] + [tokens[row]];
  }

  /** getInputs(String[]): tokenize every sequence, then encode the token rows. */
  method GetInputsBatch(m: Model, sequences: seq<string>) returns (r: Result<Inputs>)
    ensures r == BatchOutcome(m, TokenizeBatch(m.tokenizer, sequences))
  {
    var tokens := TokenizeBatch(m.tokenizer, sequences);
    TokenizeBatchRows(m.tokenizer, sequences);
    r := PutRows(m, tokens);
  }

  /** Row i of a batch occupies [i * maxSequenceLength, (i + 1) * maxSequenceLength) of each
      buffer and is exactly what getInputs(String) produces for sequence i alone: rows do not
      depend on one another. */
  lemma BatchRowIsSingle(m: Model, sequences: seq<string>, i: nat)
    requires m.maxSequenceLength >= 2 && i < |sequences|
    requires AllConvert(m, TokenizeBatch(m.tokenizer, sequences))
    ensures Convert(m.tokenizer.vocabulary, Tokenize(m.tokenizer, sequences[i])).Success?
    ensures var ids := ConvertRows(m, TokenizeBatch(m.tokenizer, sequences));
      var w := m.maxSequenceLength;
      && |BatchIds(m, ids)| == |sequences| * w && |BatchMask(m, ids)| == |sequences| * w
      && |BatchSegments(m, |sequences|)| == |sequences| * w
      && 0 <= i * w <= (i + 1) * w <= |sequences| * w
    ensures var ids := ConvertRows(m, TokenizeBatch(m.tokenizer, sequences));
      var w := m.maxSequenceLength;
      var single := Convert(m.tokenizer.vocabulary, Tokenize(m.tokenizer, sequences[i])).value;
      && BatchIds(m, ids)[i * w .. (i + 1) * w] == EncodeIds(m, single)
      && BatchMask(m, ids)[i * w .. (i + 1) * w] == EncodeMask(m, |single|)
      && BatchSegments(m, |sequences|)[i * w .. (i + 1) * w] == Zeros(w)
  {
    var rows := TokenizeBatch(m.tokenizer, sequences);
    TokenizeBatchRows(m.tokenizer, sequences);
    assert rows[i] == Tokenize(m.tokenizer, sequences[i]);
    var ids := ConvertRows(m, rows);
    assert Convert(m.tokenizer.vocabulary, rows[i]).Success?;
    assert ids[i] == Convert(m.tokenizer.vocabulary, rows[i]).value;
    BatchIdsRow(m, ids, i);
    BatchMaskRow(m, ids, i);
    BatchSegmentsRow(m, |ids|, i);
  }

  lemma BatchIdsRow(m: Model, ids: seq<seq<int>>, i: nat)
    requires m.maxSequenceLength >= 2 && i < |ids|
    ensures |BatchIds(m, ids)| == |ids| * m.maxSequenceLength
    ensures 0 <= i * m.maxSequenceLength <= (i + 1) * m.maxSequenceLength <= |BatchIds(m, ids)|
    ensures BatchIds(m, ids)[i * m.maxSequenceLength .. (i + 1) * m.maxSequenceLength] == EncodeIds(m, ids[i])
  {
    var w: nat := m.maxSequenceLength;
    var rows := seq(|ids|, j requires 0 <= j < |ids| => EncodeIds(m, ids[j]));
    forall j | 0 <= j < |rows| ensures |rows[j]| == w {
      assert rows[j] == EncodeIds(m, ids[j]);
    }
    FlattenRow(rows, w, i);
    assert BatchIds(m, ids) == Flatten(rows);
    assert rows[i] == EncodeIds(m, ids[i]);
    assert BatchIds(m, ids)[i * w .. (i + 1) * w] == EncodeIds(m, ids[i]);
  }

  lemma BatchMaskRow(m: Model, ids: seq<seq<int>>, i: nat)
    requires m.maxSequenceLength >= 2 && i < |ids|
    ensures |BatchMask(m, ids)| == |ids| * m.maxSequenceLength
    ensures 0 <= i * m.maxSequenceLength <= (i + 1) * m.maxSequenceLength <= |BatchMask(m, ids)|
    ensures BatchMask(m, ids)[i * m.maxSequenceLength .. (i + 1) * m.maxSequenceLength] == EncodeMask(m, |ids[i]|)
  {
    var w: nat := m.maxSequenceLength;
    var rows := seq(|ids|, j requires 0 <= j < |ids| => EncodeMask(m, |ids[j]|));
    forall j | 0 <= j < |rows| ensures |rows[j]| == w {
      assert rows[j] == EncodeMask(m, |ids[j]|);
    }
    FlattenRow(rows, w, i);
    assert BatchMask(m, ids) == Flatten(rows);
    assert rows[i] == EncodeMask(m, |ids[i]|);
    assert BatchMask(m, ids)[i * w .. (i + 1) * w] == EncodeMask(m, |ids[i]|);
  }

  lemma BatchSegmentsRow(m: Model, count: nat, i: nat)
    requires m.maxSequenceLength >= 2 && i < count
    ensures |BatchSegments(m, count)| == count * m.maxSequenceLength
    ensures 0 <= i * m.maxSequenceLength <= (i + 1) * m.maxSequenceLength <= |BatchSegments(m, count)|
    ensures BatchSegments(m, count)[i * m.maxSequenceLength .. (i + 1) * m.maxSequenceLength] == Zeros(m.maxSequenceLength)
  {
    var w: nat := m.maxSequenceLength;
    var rows := seq(count, j requires 0 <= j < count => Zeros(m.maxSequenceLength));
    forall j | 0 <= j < |rows| ensures |rows[j]| == w {
      assert rows[j] == Zeros(w);
    }
    FlattenRow(rows, w, i);
  }

  /** Two concrete rows with maxSequenceLength 5: ten content ids keep only the first three;
      one content id is followed by two padding positions. */
  lemma EncodeExamples(m: Model)
    requires m.maxSequenceLength == 5
    ensures EncodeIds(m, [10, 11, 12, 13, 14, 15, 16, 17, 18, 19])
      == [m.startTokenId, 10, 11, 12, m.separatorTokenId]
    ensures EncodeMask(m, 10) == [1, 1, 1, 1, 1]
    ensures EncodeIds(m, [10]) == [m.startTokenId, 10, m.separatorTokenId, 0, 0]
    ensures EncodeMask(m, 1) == [1, 1, 1, 0, 0]
  {
    assert [10, 11, 12, 13, 14, 15, 16, 17, 18, 19][..3] == [10, 11, 12];
    assert [10][..1] == [10];
  }
}
